/** The seal registry and the sealing protocol
    (src/model_forge/application/run_profile_assembler.py).

    Many attempts run at once.  Each atomic step of `seal_invocation` is one event; the role
    lock may refuse an attempt but is never relied on, because it lets the same invocation in
    twice.  `digest` stands for the manifest digest. */
module SealRegistry {
  import opened Wrappers

  type Key = string
  type Invocation = string
  type Digest = int

  /** The manifest document; `seal` is the random seal id, `body` everything else. */
  datatype Document = Document(seal: nat, invocation: Invocation, key: Key, body: int)

  /** A registry row; the run directory is a function of the invocation id. */
  datatype SealRow = SealRow(seal: nat, invocation: Invocation, key: Key, digest: Digest)

  /** A run directory, with the attempt that created it. */
  datatype Directory = Directory(owner: nat, manifest: Option<Document>)

  datatype Sealed = Sealed(row: SealRow, manifest: Document)

  datatype SealError =
    | DirectoryExists | ManifestUnreadable | DigestMismatch | Constraint | Interrupted

  // ---------------------------------------------------------------- the registry

  /** The first row with this idempotency key. */
  function FindByKey(rows: seq<SealRow>, key: Key): Option<SealRow> {
    if rows == [] then None
    else if rows[0].key == key then Some(rows[0])
    else FindByKey(rows[1..], key)
  }

  /** PRIMARY KEY(seal_id), UNIQUE(invocation_id) and UNIQUE(idempotency_key). */
  predicate Clashes(rows: seq<SealRow>, row: SealRow) {
    exists i | 0 <= i < |rows| ::
      rows[i].seal == row.seal || rows[i].invocation == row.invocation || rows[i].key == row.key
  }

  /** `create_seal`: insert, or return the row that already has the key. */
  function Created(rows: seq<SealRow>, row: SealRow): (seq<SealRow>, Result<SealRow, SealError>) {
    if !Clashes(rows, row) then (rows + [row], Ok(row))
    else
      match FindByKey(rows, row.key)
      case Some(existing) => (rows, Ok(existing))
      case None => (rows, Err(Constraint))
  }

  /** `_reconstruct`: read the manifest back and compare its digest with the row. */
  function Reconstructed(digest: Document -> Digest, dirs: map<Invocation, Directory>, row: SealRow)
    : Result<Sealed, SealError>
  {
    if row.invocation !in dirs || dirs[row.invocation].manifest.None? then Err(ManifestUnreadable)
    else if digest(dirs[row.invocation].manifest.value) != row.digest then Err(DigestMismatch)
    else Ok(Sealed(row, dirs[row.invocation].manifest.value))
  }

  // ---------------------------------------------------------------- interleaved attempts

  datatype Phase =
    | Checking                       // look the idempotency key up
    | Probing                        // does the run directory exist?
    | Locking                        // take the role lock
    | Creating                       // exclusive mkdir
    | Assembling                     // fill the directory and write the manifest
    | Inserting(document: Document)  // create_seal
    | RollingBack(error: SealError)  // an exception after mkdir: rmtree, then raise
    | Following                      // mkdir lost: look the winner up
    | Adopting(winner: SealRow)      // the key race is lost: rmtree if elsewhere, then reconstruct
    | Returned(sealed: Sealed)
    | Raised(error: SealError)

  /** `created` is the source's `dir_created`; `residue` records that `rmtree` failed quietly. */
  datatype Attempt = Attempt(key: Key, invocation: Invocation, created: bool, residue: bool, phase: Phase)

  datatype World = World(rows: seq<SealRow>, dirs: map<Invocation, Directory>, attempts: map<nat, Attempt>)

  /** `Fail` is an exception in the step, or an `rmtree` that leaves the directory behind. */
  datatype Choice = Proceed(body: int) | Fail

  datatype Event = Start(a: nat, key: Key, invocation: Invocation) | Advance(a: nat, choice: Choice)

  /** The attempt is still there, for the same key and invocation. */
  predicate SameCall(w: World, v: World, a: nat)
    requires a in w.attempts
  {
    a in v.attempts && v.attempts[a].key == w.attempts[a].key && v.attempts[a].invocation == w.attempts[a].invocation
  }

  function Move(w: World, a: nat, phase: Phase): World
    requires a in w.attempts
  {
    w.(attempts := w.attempts[a := w.attempts[a].(phase := phase)])
  }

  function Settle(digest: Document -> Digest, w: World, a: nat, row: SealRow): (v: World)
    requires a in w.attempts
    ensures SameCall(w, v, a)
  {
    match Reconstructed(digest, w.dirs, row)
    case Ok(sealed) => Move(w, a, Returned(sealed))
    case Err(e) => Move(w, a, Raised(e))
  }

  /** `shutil.rmtree(run_dir, ignore_errors=True)`. */
  function Removed(w: World, a: nat, choice: Choice): (v: World)
    requires a in w.attempts
    ensures SameCall(w, v, a)
  {
    if choice.Fail? then w.(attempts := w.attempts[a := w.attempts[a].(residue := true)])
    else w.(dirs := w.dirs - {w.attempts[a].invocation})
  }

  function Step(digest: Document -> Digest, w: World, e: Event): World {
    match e
    case Start(a, key, invocation) =>
      if a in w.attempts then w
      else w.(attempts := w.attempts[a := Attempt(key, invocation, false, false, Checking)])
    case Advance(a, choice) =>
      if a !in w.attempts then w else Advanced(digest, w, a, choice)
  }

  function Advanced(digest: Document -> Digest, w: World, a: nat, choice: Choice): World
    requires a in w.attempts
  {
    var t := w.attempts[a];
    match t.phase
    case Checking =>
      if choice.Fail? then Move(w, a, Raised(Interrupted))
      else
        (match FindByKey(w.rows, t.key)
         case Some(row) => Settle(digest, w, a, row)
         case None => Move(w, a, Probing))
    case Probing =>
      if choice.Fail? then Move(w, a, Raised(Interrupted))
      else if t.invocation in w.dirs then Move(w, a, Raised(DirectoryExists))
      else Move(w, a, Locking)
    case Locking =>
      if choice.Fail? then Move(w, a, Raised(Interrupted)) else Move(w, a, Creating)
    case Creating =>
      if choice.Fail? then Move(w, a, Raised(Interrupted))
      else if t.invocation in w.dirs then Move(w, a, Following)
      else
        w.(dirs := w.dirs[t.invocation := Directory(a, None)],
           attempts := w.attempts[a := t.(created := true, phase := Assembling)])
    case Assembling =>
      if choice.Fail? || t.invocation !in w.dirs then Move(w, a, RollingBack(Interrupted))
      else
        var document := Document(a, t.invocation, t.key, choice.body);
        Move(w.(dirs := w.dirs[t.invocation := w.dirs[t.invocation].(manifest := Some(document))]),
             a, Inserting(document))
    case Inserting(document) =>
      if choice.Fail? then Move(w, a, RollingBack(Interrupted))
      else
        var (rows, r) := Created(w.rows, SealRow(a, t.invocation, t.key, digest(document)));
        (match r
         case Err(error) => Move(w, a, RollingBack(error))
         case Ok(row) =>
           if row.seal == a then Move(w.(rows := rows), a, Returned(Sealed(row, document)))
           else Move(w.(rows := rows), a, Adopting(row)))
    case RollingBack(error) =>
      Move(if t.created then Removed(w, a, choice) else w, a, Raised(error))
    case Following =>
      if choice.Fail? then Move(w, a, Raised(Interrupted))
      else
        (match FindByKey(w.rows, t.key)
         case Some(row) => Settle(digest, w, a, row)
         case None => Move(w, a, Raised(DirectoryExists)))
    case Adopting(winner) =>
      Settle(digest, if t.created && winner.invocation != t.invocation then Removed(w, a, choice) else w, a, winner)
    case Returned(_) => w
    case Raised(_) => w
  }

  function Run(digest: Document -> Digest, w: World, es: seq<Event>): World
    decreases |es|
  {
    if es == [] then w else Run(digest, Step(digest, w, es[0]), es[1..])
  }

  const EMPTY := World([], map[], map[])

  // ---------------------------------------------------------------- the invariant

  lemma {:induction false} FindByKeyFinds(rows: seq<SealRow>, key: Key)
    ensures FindByKey(rows, key).Some? ==> FindByKey(rows, key).value in rows && FindByKey(rows, key).value.key == key
    ensures FindByKey(rows, key).None? ==> forall r | r in rows :: r.key != key
  {
    if rows != [] { FindByKeyFinds(rows[1..], key); }
  }

  predicate Owning(p: Phase) {
    p.Assembling? || p.Inserting? || p.RollingBack? || p.Adopting?
  }

  ghost predicate RowsUnique(rows: seq<SealRow>) {
    forall i, j | 0 <= i < j < |rows| ::
      rows[i].seal != rows[j].seal && rows[i].invocation != rows[j].invocation && rows[i].key != rows[j].key
  }

  /** The manifest names the seal, the invocation and the key it was written for. */
  predicate Names(document: Document, seal: nat, invocation: Invocation, key: Key) {
    document.seal == seal && document.invocation == invocation && document.key == key
  }

  /** Every row's directory exists, belongs to the attempt that wrote the row, and holds a
      manifest that names the row and has the recorded digest. */
  ghost predicate RowBacked(digest: Document -> Digest, w: World, r: SealRow) {
    && r.invocation in w.dirs
    && w.dirs[r.invocation].owner == r.seal
    && w.dirs[r.invocation].manifest.Some?
    && digest(w.dirs[r.invocation].manifest.value) == r.digest
    && Names(w.dirs[r.invocation].manifest.value, r.seal, r.invocation, r.key)
    && r.seal in w.attempts
    && w.attempts[r.seal].invocation == r.invocation
    && w.attempts[r.seal].key == r.key
    && w.attempts[r.seal].phase == Returned(Sealed(r, w.dirs[r.invocation].manifest.value))
  }

  /** What an attempt in each phase may rely on. */
  ghost predicate AttemptSound(digest: Document -> Digest, w: World, a: nat) {
    a in w.attempts ==>
      var t := w.attempts[a];
      && (Owning(t.phase) ==> t.created && !t.residue && t.invocation in w.dirs && w.dirs[t.invocation].owner == a)
      && (t.created ==> Owning(t.phase) || t.phase.Returned? || t.phase.Raised?)
      && (t.phase.Inserting? ==> w.dirs[t.invocation].manifest == Some(t.phase.document)
                                 && Names(t.phase.document, a, t.invocation, t.key))
      && (t.phase.Adopting? ==> t.phase.winner in w.rows && t.phase.winner.key == t.key
                                && t.phase.winner.invocation != t.invocation)
      && (t.phase.Returned? ==> t.phase.sealed.row in w.rows && t.phase.sealed.row.key == t.key
                                && Reconstructed(digest, w.dirs, t.phase.sealed.row) == Ok(t.phase.sealed))
      && (t.residue ==> t.invocation in w.dirs && w.dirs[t.invocation].owner == a)
  }

  /** Every directory belongs to an attempt that is still working on it, has sealed it, or
      could not remove it. */
  ghost predicate DirectoryOwned(w: World, i: Invocation) {
    i in w.dirs ==>
      var o := w.dirs[i].owner;
      && o in w.attempts && w.attempts[o].invocation == i
      && (Owning(w.attempts[o].phase) || w.attempts[o].residue
          || (w.attempts[o].phase.Returned? && w.attempts[o].phase.sealed.row.seal == o))
  }

  ghost predicate Invariant(digest: Document -> Digest, w: World) {
    && RowsUnique(w.rows)
    && (forall r | r in w.rows :: RowBacked(digest, w, r))
    && (forall a :: AttemptSound(digest, w, a))
    && (forall i :: DirectoryOwned(w, i))
  }

  // ---------------------------------------------------------------- one step

  lemma DirectoryFrame(digest: Document -> Digest, w: World, a: nat, choice: Choice, i: Invocation)
    requires Invariant(digest, w) && a in w.attempts && i in w.dirs && w.dirs[i].owner != a
    ensures var v := Advanced(digest, w, a, choice); i in v.dirs && v.dirs[i] == w.dirs[i]
  {
    assert AttemptSound(digest, w, a);
  }

  lemma AttemptFrame(digest: Document -> Digest, w: World, a: nat, choice: Choice)
    requires a in w.attempts
    ensures var v := Advanced(digest, w, a, choice);
      w.rows <= v.rows && v.attempts.Keys == w.attempts.Keys && v.attempts - {a} == w.attempts - {a}
  {
  }

  /** A step touches its own attempt only, never loses a row, and leaves every directory that
      another attempt created exactly as it was. */
  lemma StepFrame(digest: Document -> Digest, w: World, a: nat, choice: Choice)
    requires Invariant(digest, w) && a in w.attempts
    ensures var v := Advanced(digest, w, a, choice);
      && w.rows <= v.rows
      && (forall b | b in w.attempts && b != a :: b in v.attempts && v.attempts[b] == w.attempts[b])
      && (forall b | b in v.attempts :: b in w.attempts)
      && (forall i | i in w.dirs && w.dirs[i].owner != a :: i in v.dirs && v.dirs[i] == w.dirs[i])
  {
    var v := Advanced(digest, w, a, choice);
    AttemptFrame(digest, w, a, choice);
    forall b | b in w.attempts && b != a ensures b in v.attempts && v.attempts[b] == w.attempts[b] {
      assert b in w.attempts - {a} && (w.attempts - {a})[b] == w.attempts[b];
      assert b in v.attempts - {a};
    }
    forall i | i in w.dirs && w.dirs[i].owner != a ensures i in v.dirs && v.dirs[i] == w.dirs[i] {
      DirectoryFrame(digest, w, a, choice, i);
    }
  }

  lemma RowSurvives(digest: Document -> Digest, w: World, a: nat, choice: Choice, r: SealRow)
    requires Invariant(digest, w) && a in w.attempts && r in w.rows
    ensures RowBacked(digest, Advanced(digest, w, a, choice), r)
    ensures Advanced(digest, w, a, choice).dirs[r.invocation] == w.dirs[r.invocation]
  {
    StepFrame(digest, w, a, choice);
    assert RowBacked(digest, w, r);
  }

  /** Only the insertion adds a row, and the row it adds is backed. */
  lemma NewRowBacked(digest: Document -> Digest, w: World, a: nat, choice: Choice)
    requires Invariant(digest, w) && a in w.attempts
    ensures var v := Advanced(digest, w, a, choice);
      v.rows == w.rows || (|v.rows| == |w.rows| + 1 && RowBacked(digest, v, v.rows[|w.rows|])
                           && !Clashes(w.rows, v.rows[|w.rows|]) && v.rows[|w.rows|].seal == a)
  {
    assert AttemptSound(digest, w, a);
    var t := w.attempts[a];
    if t.phase.Inserting? {
      FindByKeyFinds(w.rows, t.key);
    }
  }

  lemma OtherSurvives(digest: Document -> Digest, w: World, a: nat, choice: Choice, b: nat)
    requires Invariant(digest, w) && a in w.attempts && b != a
    ensures AttemptSound(digest, Advanced(digest, w, a, choice), b)
  {
    StepFrame(digest, w, a, choice);
    assert AttemptSound(digest, w, b);
    if b in w.attempts && w.attempts[b].phase.Returned? {
      RowSurvives(digest, w, a, choice, w.attempts[b].phase.sealed.row);
    }
  }

  /** A row with this key that another attempt can see never lives in the looker's directory. */
  lemma WinnerIsElsewhere(digest: Document -> Digest, w: World, a: nat, r: SealRow)
    requires Invariant(digest, w) && a in w.attempts && r in w.rows
    requires Owning(w.attempts[a].phase)
    ensures r.invocation != w.attempts[a].invocation
  {
    assert AttemptSound(digest, w, a) && RowBacked(digest, w, r);
  }

  lemma SettleSound(digest: Document -> Digest, w: World, a: nat, r: SealRow)
    requires a in w.attempts && r in w.rows && RowBacked(digest, w, r) && r.key == w.attempts[a].key
    requires w.attempts[a].residue ==>
      w.attempts[a].invocation in w.dirs && w.dirs[w.attempts[a].invocation].owner == a
    ensures AttemptSound(digest, Settle(digest, w, a, r), a)
    ensures Settle(digest, w, a, r).attempts[a].phase.Returned?
  {
  }

  lemma SelfSound(digest: Document -> Digest, w: World, a: nat, choice: Choice)
    requires Invariant(digest, w) && a in w.attempts
    ensures AttemptSound(digest, Advanced(digest, w, a, choice), a)
  {
    assert AttemptSound(digest, w, a);
    var t := w.attempts[a];
    FindByKeyFinds(w.rows, t.key);
    match t.phase
    case Checking =>
      var found := FindByKey(w.rows, t.key);
      if choice.Proceed? && found.Some? { SettleSound(digest, w, a, found.value); }
    case Following =>
      var found := FindByKey(w.rows, t.key);
      if choice.Proceed? && found.Some? { SettleSound(digest, w, a, found.value); }
    case Inserting(document) =>
      if choice.Proceed? {
        var row := SealRow(a, t.invocation, t.key, digest(document));
        var (rows, r) := Created(w.rows, row);
        forall q | q in w.rows ensures q.seal != a { assert RowBacked(digest, w, q); }
        if r.Ok? && r.value.seal != a {
          WinnerIsElsewhere(digest, w, a, r.value);
        }
      }
    case Adopting(winner) =>
      assert RowBacked(digest, w, winner);
      var v := Removed(w, a, choice);
      assert w.dirs[winner.invocation].owner == winner.seal;
      SettleSound(digest, v, a, winner);
    case _ =>
  }

  /** A step creates at most the directory of its own invocation. */
  lemma DirectoryOrigin(digest: Document -> Digest, w: World, a: nat, choice: Choice, i: Invocation)
    requires a in w.attempts && i in Advanced(digest, w, a, choice).dirs
    ensures var v := Advanced(digest, w, a, choice);
      (i in w.dirs && v.dirs[i].owner == w.dirs[i].owner)
      || (i == w.attempts[a].invocation && v.dirs[i].owner == a && Owning(v.attempts[a].phase))
  {
  }

  /** An attempt stops owning its directory only by sealing it or by failing to remove it. */
  lemma OwnDirectoryOwned(digest: Document -> Digest, w: World, a: nat, choice: Choice)
    requires Invariant(digest, w) && a in w.attempts
    ensures var v, i := Advanced(digest, w, a, choice), w.attempts[a].invocation;
      i in v.dirs && v.dirs[i].owner == a ==> DirectoryOwned(v, i)
  {
    var t := w.attempts[a];
    assert DirectoryOwned(w, t.invocation) && AttemptSound(digest, w, a);
    SelfSound(digest, w, a, choice);
  }

  lemma DirectoriesOwned(digest: Document -> Digest, w: World, a: nat, choice: Choice, i: Invocation)
    requires Invariant(digest, w) && a in w.attempts
    ensures DirectoryOwned(Advanced(digest, w, a, choice), i)
  {
    var v := Advanced(digest, w, a, choice);
    assert DirectoryOwned(w, i);
    if i in v.dirs {
      DirectoryOrigin(digest, w, a, choice, i);
      if v.dirs[i].owner == a {
        OwnDirectoryOwned(digest, w, a, choice);
      } else {
        StepFrame(digest, w, a, choice);
      }
    }
  }

  lemma StartKeepsInvariant(digest: Document -> Digest, w: World, a: nat, key: Key, invocation: Invocation)
    requires Invariant(digest, w) && a !in w.attempts
    ensures Invariant(digest, Step(digest, w, Start(a, key, invocation)))
  {
    var v := Step(digest, w, Start(a, key, invocation));
    forall r | r in v.rows ensures RowBacked(digest, v, r) { assert RowBacked(digest, w, r); }
    forall b ensures AttemptSound(digest, v, b) { assert AttemptSound(digest, w, b); }
    forall i ensures DirectoryOwned(v, i) { assert DirectoryOwned(w, i); }
  }

  lemma AdvanceKeepsInvariant(digest: Document -> Digest, w: World, a: nat, choice: Choice)
    requires Invariant(digest, w) && a in w.attempts
    ensures Invariant(digest, Advanced(digest, w, a, choice))
  {
    var v := Advanced(digest, w, a, choice);
    NewRowBacked(digest, w, a, choice);
    forall r | r in v.rows ensures RowBacked(digest, v, r) {
      StepFrame(digest, w, a, choice);
      if r in w.rows { RowSurvives(digest, w, a, choice, r); }
    }
    forall b ensures AttemptSound(digest, v, b) {
      if b == a { SelfSound(digest, w, a, choice); } else { OtherSurvives(digest, w, a, choice, b); }
    }
    forall i ensures DirectoryOwned(v, i) { DirectoriesOwned(digest, w, a, choice, i); }
  }

  lemma StepKeepsInvariant(digest: Document -> Digest, w: World, e: Event)
    requires Invariant(digest, w)
    ensures Invariant(digest, Step(digest, w, e))
  {
    match e
    case Start(a, key, invocation) =>
      if a !in w.attempts { StartKeepsInvariant(digest, w, a, key, invocation); }
    case Advance(a, choice) =>
      if a in w.attempts { AdvanceKeepsInvariant(digest, w, a, choice); }
  }

  lemma {:induction false} RunKeepsInvariant(digest: Document -> Digest, w: World, es: seq<Event>)
    requires Invariant(digest, w)
    ensures Invariant(digest, Run(digest, w, es))
    decreases |es|
  {
    if es != [] {
      StepKeepsInvariant(digest, w, es[0]);
      RunKeepsInvariant(digest, Step(digest, w, es[0]), es[1..]);
    }
  }

  // ---------------------------------------------------------------- main results

  ghost predicate Reachable(digest: Document -> Digest, w: World) {
    exists es :: w == Run(digest, EMPTY, es)
  }

  lemma ReachableInvariant(digest: Document -> Digest, w: World)
    requires Reachable(digest, w)
    ensures Invariant(digest, w)
  {
    var es :| w == Run(digest, EMPTY, es);
    RunKeepsInvariant(digest, EMPTY, es);
  }

  /** Every sealed row can be reconstructed: its directory exists, and the manifest in it is the one
      written for this seal, invocation and key and has the recorded digest. */
  lemma EverySealReconstructs(digest: Document -> Digest, w: World, r: SealRow)
    requires Reachable(digest, w) && r in w.rows
    ensures Reconstructed(digest, w.dirs, r).Ok? && w.dirs[r.invocation].owner == r.seal
    ensures Names(Reconstructed(digest, w.dirs, r).value.manifest, r.seal, r.invocation, r.key)
  {
    ReachableInvariant(digest, w);
    assert RowBacked(digest, w, r);
  }

  /** No attempt deletes or changes a directory that another attempt created, and no attempt
      touches the directory of a sealed row, its own included. */
  lemma NoForeignDeletion(digest: Document -> Digest, w: World, a: nat, choice: Choice, i: Invocation)
    requires Reachable(digest, w) && i in w.dirs
    requires w.dirs[i].owner != a || exists r :: r in w.rows && r.invocation == i
    ensures var v := Step(digest, w, Advance(a, choice)); i in v.dirs && v.dirs[i] == w.dirs[i]
  {
    ReachableInvariant(digest, w);
    if a in w.attempts {
      if w.dirs[i].owner != a {
        DirectoryFrame(digest, w, a, choice, i);
      } else {
        var r :| r in w.rows && r.invocation == i;
        RowSurvives(digest, w, a, choice, r);
      }
    }
  }

  /** All calls that return for one key return the same row and the same manifest. */
  lemma SameKeySameSeal(digest: Document -> Digest, w: World, a: nat, b: nat)
    requires Reachable(digest, w) && a in w.attempts && b in w.attempts && w.attempts[a].key == w.attempts[b].key
    requires w.attempts[a].phase.Returned? && w.attempts[b].phase.Returned?
    ensures w.attempts[a].phase.sealed == w.attempts[b].phase.sealed
    ensures w.attempts[a].phase.sealed.row.key == w.attempts[a].key
  {
    ReachableInvariant(digest, w);
    assert AttemptSound(digest, w, a) && AttemptSound(digest, w, b);
    var r, q := w.attempts[a].phase.sealed.row, w.attempts[b].phase.sealed.row;
    var i :| 0 <= i < |w.rows| && w.rows[i] == r;
    var j :| 0 <= j < |w.rows| && w.rows[j] == q;
    assert i == j;
  }

  /** The loser of the key race always finds the winner in another directory, so the guard
      `record["run_dir"] != run_dir` never keeps the loser's own directory. */
  lemma SamePathWinnerImpossible(digest: Document -> Digest, w: World, a: nat)
    requires Reachable(digest, w) && a in w.attempts && w.attempts[a].phase.Adopting?
    ensures w.attempts[a].phase.winner.invocation != w.attempts[a].invocation
    ensures w.attempts[a].created && w.attempts[a].invocation in w.dirs
    ensures w.dirs[w.attempts[a].invocation].owner == a
  {
    ReachableInvariant(digest, w);
    assert AttemptSound(digest, w, a);
  }

  /** A finished attempt that did not seal leaves no directory of its own, except exactly when
      its `rmtree` failed quietly. */
  lemma UnsealedLeavesNothing(digest: Document -> Digest, w: World, a: nat)
    requires Reachable(digest, w) && a in w.attempts
    requires var p := w.attempts[a].phase; p.Raised? || (p.Returned? && p.sealed.row.seal != a)
    ensures (exists i :: i in w.dirs && w.dirs[i].owner == a) <==> w.attempts[a].residue
  {
    ReachableInvariant(digest, w);
    assert AttemptSound(digest, w, a);
    forall i | i in w.dirs && w.dirs[i].owner == a ensures w.attempts[a].residue {
      assert DirectoryOwned(w, i);
    }
  }

  /** A seal is permanent: whatever happens later, a new call with its key returns it. */
  lemma {:induction false} SealIsPermanent(digest: Document -> Digest, w: World, es: seq<Event>, r: SealRow)
    requires Invariant(digest, w) && r in w.rows
    ensures var v := Run(digest, w, es);
      && r in v.rows && FindByKey(v.rows, r.key) == Some(r)
      && Reconstructed(digest, v.dirs, r) == Reconstructed(digest, w.dirs, r)
    decreases |es|
  {
    if es == [] {
      FindByKeyFinds(w.rows, r.key);
      var found := FindByKey(w.rows, r.key);
      assert found.Some?;
      var i :| 0 <= i < |w.rows| && w.rows[i] == r;
      var j :| 0 <= j < |w.rows| && w.rows[j] == found.value;
      assert i == j;
    } else {
      var v := Step(digest, w, es[0]);
      StepKeepsInvariant(digest, w, es[0]);
      if es[0].Advance? && es[0].a in w.attempts {
        AttemptFrame(digest, w, es[0].a, es[0].choice);
        RowSurvives(digest, w, es[0].a, es[0].choice, r);
        assert RowBacked(digest, w, r);
      }
      SealIsPermanent(digest, v, es[1..], r);
    }
  }

  // ---------------------------------------------------------------- how every attempt ends

  lemma KeyHasOneRow(w: World, r: SealRow, q: SealRow)
    requires RowsUnique(w.rows) && r in w.rows && q in w.rows && r.key == q.key
    ensures r == q
  {
    var i :| 0 <= i < |w.rows| && w.rows[i] == r;
    var j :| 0 <= j < |w.rows| && w.rows[j] == q;
    assert i == j;
  }

  /** Once its key is sealed, an attempt at the idempotency lookup, one that lost the exclusive mkdir
      and one that lost the key race all return that seal with the manifest in its directory. */
  lemma SealedKeyIsReturned(digest: Document -> Digest, w: World, a: nat, choice: Choice, r: SealRow)
    requires Reachable(digest, w) && a in w.attempts && r in w.rows && r.key == w.attempts[a].key
    requires var p := w.attempts[a].phase; p.Adopting? || (choice.Proceed? && (p.Checking? || p.Following?))
    ensures r.invocation in w.dirs && w.dirs[r.invocation].manifest.Some?
    ensures Step(digest, w, Advance(a, choice)).attempts[a].phase == Returned(Sealed(r, w.dirs[r.invocation].manifest.value))
  {
    ReachableInvariant(digest, w);
    assert RowBacked(digest, w, r);
    var p := w.attempts[a].phase;
    if p.Adopting? {
      assert AttemptSound(digest, w, a);
      RemovalKeepsWinner(digest, w, a, choice, p.winner);
      KeyHasOneRow(w, r, p.winner);
    } else {
      LookupSettles(digest, w, a);
      KeyHasOneRow(w, r, FindByKey(w.rows, r.key).value);
    }
  }

  /** Why the next step of an attempt ends in an exception, if it does: the step itself fails, the run
      directory is already there at the probe, or the exclusive mkdir was lost and the key is not
      sealed. */
  predicate Refusal(w: World, a: nat, choice: Choice, error: SealError)
    requires a in w.attempts
  {
    var t := w.attempts[a];
    if choice.Fail? then error.Interrupted? && !t.phase.Adopting?
    else
      && error.DirectoryExists?
      && ((t.phase.Probing? && t.invocation in w.dirs) || (t.phase.Following? && forall r | r in w.rows :: r.key != t.key))
  }

  /** An attempt fails exactly for one of those reasons; when it has a directory of its own, it removes
      that first.  An unreadable manifest, another digest and a constraint violation never occur, and
      an attempt that lost the key race never fails. */
  lemma RaisesIff(digest: Document -> Digest, w: World, a: nat, choice: Choice, error: SealError)
    requires Reachable(digest, w) && a in w.attempts
    requires var p := w.attempts[a].phase; !p.Returned? && !p.Raised? && !p.RollingBack?
    ensures var p := Step(digest, w, Advance(a, choice)).attempts[a].phase;
      && (p == (if w.attempts[a].created then RollingBack(error) else Raised(error)) <==> Refusal(w, a, choice, error))
      && (p.Raised? || p.RollingBack? ==> Refusal(w, a, choice, p.error))
  {
    ReachableInvariant(digest, w);
    var p := Step(digest, w, Advance(a, choice)).attempts[a].phase;
    if Refusal(w, a, choice, error) { RefusedRaises(digest, w, a, choice, error); }
    RaisedIsRefused(digest, w, a, choice);
    hide *;
  }

  /** What an attempt on its way knows about its own directory. */
  lemma OwnsWhatItCreated(digest: Document -> Digest, w: World, a: nat)
    requires Invariant(digest, w) && a in w.attempts
    requires var p := w.attempts[a].phase; !p.Returned? && !p.Raised?
    ensures var t := w.attempts[a]; (Owning(t.phase) <==> t.created) && (t.created ==> t.invocation in w.dirs)
  {
    assert AttemptSound(digest, w, a);
  }

  lemma RefusedRaises(digest: Document -> Digest, w: World, a: nat, choice: Choice, error: SealError)
    requires Invariant(digest, w) && a in w.attempts && Refusal(w, a, choice, error)
    requires var p := w.attempts[a].phase; !p.Returned? && !p.Raised? && !p.RollingBack?
    ensures Step(digest, w, Advance(a, choice)).attempts[a].phase == if w.attempts[a].created then RollingBack(error) else Raised(error)
  {
    OwnsWhatItCreated(digest, w, a);
    if w.attempts[a].phase.Following? { LookupSettles(digest, w, a); }
    hide Invariant, Settle, Created, FindByKey;
  }

  lemma RaisedIsRefused(digest: Document -> Digest, w: World, a: nat, choice: Choice)
    requires Invariant(digest, w) && a in w.attempts
    requires var p := w.attempts[a].phase; !p.Returned? && !p.Raised? && !p.RollingBack?
    ensures var p := Step(digest, w, Advance(a, choice)).attempts[a].phase;
      p.Raised? || p.RollingBack? ==> Refusal(w, a, choice, p.error) && (p.RollingBack? <==> w.attempts[a].created)
  {
    OwnsWhatItCreated(digest, w, a);
    var p := w.attempts[a].phase;
    if p.Checking? || p.Following? { LookupSettles(digest, w, a); }
    if p.Inserting? { InsertionSettles(digest, w, a, p.document); }
    if p.Adopting? { RemovalKeepsWinner(digest, w, a, choice, p.winner); }
    hide Invariant, Reconstructed, Created, FindByKey;
  }

  lemma LookupSettles(digest: Document -> Digest, w: World, a: nat)
    requires Invariant(digest, w) && a in w.attempts
    ensures var found := FindByKey(w.rows, w.attempts[a].key);
      if found.Some? then
        && found.value in w.rows && found.value.key == w.attempts[a].key
        && Settle(digest, w, a, found.value).attempts[a].phase.Returned?
      else forall r | r in w.rows :: r.key != w.attempts[a].key
  {
    FindByKeyFinds(w.rows, w.attempts[a].key);
    var found := FindByKey(w.rows, w.attempts[a].key);
    if found.Some? { assert RowBacked(digest, w, found.value); }
  }

  /** The insertion clashes with nothing but a row with the same key. */
  lemma InsertionSettles(digest: Document -> Digest, w: World, a: nat, document: Document)
    requires Invariant(digest, w) && a in w.attempts && w.attempts[a].phase == Inserting(document)
    ensures Created(w.rows, SealRow(a, w.attempts[a].invocation, w.attempts[a].key, digest(document))).1.Ok?
  {
    var t := w.attempts[a];
    FindByKeyFinds(w.rows, t.key);
    forall q | q in w.rows ensures q.seal != a && q.invocation != t.invocation {
      WinnerIsElsewhere(digest, w, a, q);
      assert RowBacked(digest, w, q);
    }
  }

  lemma RemovalKeepsWinner(digest: Document -> Digest, w: World, a: nat, choice: Choice, winner: SealRow)
    requires Invariant(digest, w) && a in w.attempts && w.attempts[a].phase == Adopting(winner)
    ensures Reconstructed(digest, w.dirs, winner).Ok?
    ensures Reconstructed(digest, Removed(w, a, choice).dirs, winner) == Reconstructed(digest, w.dirs, winner)
    ensures Advanced(digest, w, a, choice).attempts[a].phase == Returned(Reconstructed(digest, w.dirs, winner).value)
  {
    assert AttemptSound(digest, w, a) && RowBacked(digest, w, winner);
  }

  /** The exception that interrupted an attempt is the one it raises after removing its directory. */
  lemma RollbackRaises(digest: Document -> Digest, w: World, a: nat, choice: Choice)
    requires a in w.attempts && w.attempts[a].phase.RollingBack?
    ensures Step(digest, w, Advance(a, choice)).attempts[a].phase == Raised(w.attempts[a].phase.error)
  {
  }

  function Advances(es: seq<Event>, a: nat): nat {
    if es == [] then 0 else (if es[0].Advance? && es[0].a == a then 1 else 0) + Advances(es[1..], a)
  }

  /** How many steps an attempt can still take at most. */
  function Remaining(p: Phase): (n: nat)
    ensures n == 0 <==> p.Returned? || p.Raised?
    ensures n <= 7
  {
    match p
    case Checking => 7
    case Probing => 6
    case Locking => 5
    case Creating => 4
    case Assembling => 3
    case Inserting(_) => 2
    case RollingBack(_) => 1
    case Following => 1
    case Adopting(_) => 1
    case Returned(_) => 0
    case Raised(_) => 0
  }

  lemma StepShortens(digest: Document -> Digest, w: World, e: Event, a: nat)
    requires a in w.attempts
    ensures var v, n := Step(digest, w, e), Remaining(w.attempts[a].phase);
      && a in v.attempts
      && Remaining(v.attempts[a].phase) <= (if e.Advance? && e.a == a && n > 0 then n - 1 else n)
  {
    if e.Advance? && e.a in w.attempts && e.a != a {
      AttemptFrame(digest, w, e.a, e.choice);
      assert (Step(digest, w, e).attempts - {e.a})[a] == (w.attempts - {e.a})[a];
    }
  }

  lemma {:induction false} FewStepsRemain(digest: Document -> Digest, w: World, es: seq<Event>, a: nat)
    requires a in w.attempts
    ensures a in Run(digest, w, es).attempts
    ensures var n := Remaining(Run(digest, w, es).attempts[a].phase);
      n == 0 || n + Advances(es, a) <= Remaining(w.attempts[a].phase)
    decreases |es|
  {
    if es != [] {
      StepShortens(digest, w, es[0], a);
      FewStepsRemain(digest, Step(digest, w, es[0]), es[1..], a);
      hide Step, Remaining;
    }
  }

  /** Whatever the others do in between, an attempt ends after at most seven steps of its own. */
  lemma AttemptsEnd(digest: Document -> Digest, w: World, es: seq<Event>, a: nat)
    requires a in w.attempts && Advances(es, a) >= 7
    ensures a in Run(digest, w, es).attempts
    ensures var p := Run(digest, w, es).attempts[a].phase; p.Returned? || p.Raised?
  {
    FewStepsRemain(digest, w, es, a);
  }

  /** An attempt keeps the key and the invocation it was started with. */
  lemma {:induction false} AttemptIsItsCall(digest: Document -> Digest, w: World, es: seq<Event>, a: nat)
    requires a in w.attempts
    ensures SameCall(w, Run(digest, w, es), a)
    decreases |es|
  {
    if es != [] {
      StepKeepsCall(digest, w, es[0], a);
      AttemptIsItsCall(digest, Step(digest, w, es[0]), es[1..], a);
    }
  }

  lemma StepKeepsCall(digest: Document -> Digest, w: World, e: Event, a: nat)
    requires a in w.attempts
    ensures SameCall(w, Step(digest, w, e), a)
  {
    hide Advanced;
    if e.Advance? && e.a == a {
      OwnStepKeepsCall(digest, w, a, e.choice);
    } else if e.Advance? && e.a in w.attempts {
      AttemptFrame(digest, w, e.a, e.choice);
      assert (Step(digest, w, e).attempts - {e.a})[a] == (w.attempts - {e.a})[a];
    }
  }

  lemma OwnStepKeepsCall(digest: Document -> Digest, w: World, a: nat, choice: Choice)
    requires a in w.attempts
    ensures SameCall(w, Advanced(digest, w, a, choice), a)
  {
    hide Settle, Removed, FindByKey, Created;
  }

  /** A new call is at the lookup of its key and has no directory. */
  lemma StartedCall(digest: Document -> Digest, w: World, a: nat, key: Key, invocation: Invocation)
    requires a !in w.attempts
    ensures var t := Step(digest, w, Start(a, key, invocation)).attempts[a];
      t.key == key && t.invocation == invocation && !t.created && !t.residue && t.phase == Checking
  {
  }

  /** A directory is left behind by exactly the step that should remove it and fails to. */
  lemma LeftBehindIff(digest: Document -> Digest, w: World, a: nat, choice: Choice)
    requires Reachable(digest, w) && a in w.attempts
    ensures Step(digest, w, Advance(a, choice)).attempts[a].residue <==>
      w.attempts[a].residue || (choice.Fail? && (w.attempts[a].phase.RollingBack? || w.attempts[a].phase.Adopting?))
  {
    ReachableInvariant(digest, w);
    assert AttemptSound(digest, w, a);
    hide Reconstructed, Created, FindByKey, Invariant;
  }

  /** Whatever is done to the directories, a seal reconstructs to the manifest it was written with or
      not at all, when documents with one digest are equal. */
  lemma TamperingIsFound(digest: Document -> Digest, w: World, r: SealRow, dirs: map<Invocation, Directory>)
    requires Reachable(digest, w) && r in w.rows && forall d, e | digest(d) == digest(e) :: d == e
    ensures r.invocation in w.dirs && w.dirs[r.invocation].manifest.Some?
    ensures var answer := Reconstructed(digest, dirs, r);
      if r.invocation !in dirs || dirs[r.invocation].manifest.None? then answer == Err(ManifestUnreadable)
      else if dirs[r.invocation].manifest == w.dirs[r.invocation].manifest then
        answer == Ok(Sealed(r, w.dirs[r.invocation].manifest.value))
      else answer == Err(DigestMismatch)
  {
    ReachableInvariant(digest, w);
    assert RowBacked(digest, w, r);
  }

  /** A call whose key gets sealed between its lookup and its probe is told that the run directory
      exists without a seal, although it is sealed by then: the same call made again returns it. */
  lemma ProbeIgnoresSeal(digest: Document -> Digest)
    ensures exists es ::
      var w := Run(digest, EMPTY, es);
      && 2 in w.attempts && w.attempts[2].phase == Raised(DirectoryExists)
      && |w.rows| == 1 && w.rows[0].key == w.attempts[2].key
  {
    var go := Proceed(0);
    var es := [Start(1, "k", "i")];
    es := Then(digest, es, Start(2, "k", "i"));
    es := Then(digest, es, Advance(1, go));
    es := Then(digest, es, Advance(2, go));
    es := Then(digest, es, Advance(1, go));
    es := Then(digest, es, Advance(1, go));
    es := Then(digest, es, Advance(1, go));
    es := Then(digest, es, Advance(1, go));
    es := Then(digest, es, Advance(1, go));
    es := Then(digest, es, Advance(2, go));
    assert Run(digest, EMPTY, es).attempts[2].phase == Raised(DirectoryExists);
  }

  lemma Then(digest: Document -> Digest, es: seq<Event>, e: Event) returns (longer: seq<Event>)
    ensures longer == es + [e] && Run(digest, EMPTY, longer) == Step(digest, Run(digest, EMPTY, es), e)
  {
    longer := es + [e];
    RunSnoc(digest, EMPTY, es, e);
  }

  // ---------------------------------------------------------------- the code, run undisturbed

  lemma {:induction false} RunSnoc(digest: Document -> Digest, w: World, es: seq<Event>, e: Event)
    ensures Run(digest, w, es + [e]) == Step(digest, Run(digest, w, es), e)
    decreases |es|
  {
    if es == [] {
      assert [] + [e] == [e];
    } else {
      assert (es + [e])[1..] == es[1..] + [e];
      RunSnoc(digest, Step(digest, w, es[0]), es[1..], e);
    }
  }

  lemma {:induction false} RunAppend(digest: Document -> Digest, w: World, es: seq<Event>, fs: seq<Event>)
    ensures Run(digest, w, es + fs) == Run(digest, Run(digest, w, es), fs)
    decreases |es|
  {
    if es == [] {
      assert [] + fs == fs;
    } else {
      assert (es + fs)[1..] == es[1..] + fs;
      RunAppend(digest, Step(digest, w, es[0]), es[1..], fs);
    }
  }

  lemma FreshRowFits(digest: Document -> Digest, w: World, a: nat, key: Key, invocation: Invocation)
    requires Invariant(digest, w) && a !in w.attempts
    ensures FindByKey(w.rows, key).None? && invocation !in w.dirs ==>
      !Clashes(w.rows, SealRow(a, invocation, key, 0))
    ensures FindByKey(w.rows, key).Some? ==> Reconstructed(digest, w.dirs, FindByKey(w.rows, key).value).Ok?
  {
    FindByKeyFinds(w.rows, key);
    if FindByKey(w.rows, key).Some? { assert RowBacked(digest, w, FindByKey(w.rows, key).value); }
    forall i | 0 <= i < |w.rows| ensures w.rows[i].seal != a && w.rows[i].invocation in w.dirs {
      assert RowBacked(digest, w, w.rows[i]);
    }
  }

  /** This attempt's own seal: the row names it, and the manifest is the row's and what was assembled. */
  predicate SealedBy(digest: Document -> Digest, a: nat, key: Key, invocation: Invocation, assemble: Choice, s: Sealed) {
    && s.row.seal == a && s.row.invocation == invocation && s.row.key == key
    && Names(s.manifest, a, invocation, key) && assemble.Proceed? && s.manifest.body == assemble.body
    && s.row.digest == digest(s.manifest)
  }

  /** What happens at each step of one call. */
  datatype Choices = Choices(
    lookup: Choice, probe: Choice, lock: Choice, mkdir: Choice, assemble: Choice, insert: Choice, remove: Choice)
  {
    predicate AllProceed() {
      lookup.Proceed? && probe.Proceed? && lock.Proceed? && mkdir.Proceed? && assemble.Proceed? && insert.Proceed?
    }
  }

  /** The registry table, the run directories, and (for the proof only) the protocol state they
      are a view of. */
  class RunProfileAssembler {
    var rows: seq<SealRow>
    var dirs: map<Invocation, Directory>
    ghost var world: World

    ghost predicate Valid()
      reads this
    {
      world.rows == rows && world.dirs == dirs
    }

    constructor ()
      ensures Valid() && world == EMPTY
    {
      rows, dirs, world := [], map[], EMPTY;
    }

    method CreateSeal(row: SealRow) returns (r: Result<SealRow, SealError>)
      modifies this`rows
      ensures (rows, r) == Created(old(rows), row)
    {
      if Clashes(rows, row) {
        var existing := FindByKey(rows, row.key);
        match existing
        case Some(winner) => return Ok(winner);
        case None => return Err(Constraint);
      }
      rows := rows + [row];
      r := Ok(row);
    }

    /** Everything between the mkdir and the insertion, then the insertion. */
    method AssembleAndInsert(digest: Document -> Digest, a: nat, key: Key, invocation: Invocation,
                             assemble: Choice, insert: Choice)
      returns (r: Result<Sealed, SealError>, ghost trace: seq<Event>)
      requires Valid() && invocation in dirs && a in world.attempts
      requires world.attempts[a] == Attempt(key, invocation, true, false, Assembling)
      modifies this
      ensures Valid()
      ensures world == Run(digest, old(world), trace) && a in world.attempts
      ensures r.Ok? ==> world.attempts[a] == Attempt(key, invocation, true, false,
        if r.value.row.seal == a then Returned(r.value) else Adopting(r.value.row))
      ensures r.Err? ==> world.attempts[a] == Attempt(key, invocation, true, false, RollingBack(r.error))
      ensures assemble.Fail? || insert.Fail? ==> r.Err?
      ensures dirs - {invocation} == old(dirs) - {invocation}
      ensures r.Err? ==> rows == old(rows)
      ensures assemble.Proceed? && insert.Proceed? && !Clashes(old(rows), SealRow(a, invocation, key, 0)) ==>
        r.Ok? && SealedBy(digest, a, key, invocation, assemble, r.value) && rows == old(rows) + [r.value.row]
        && dirs == old(dirs)[invocation := Directory(old(dirs)[invocation].owner, Some(r.value.manifest))]
    {
      trace := [Advance(a, assemble)];
      RunSnoc(digest, world, [], trace[0]);
      world := Step(digest, world, trace[0]);
      if assemble.Fail? {
        return Err(Interrupted), trace;
      }
      var document := Document(a, invocation, key, assemble.body);
      dirs := dirs[invocation := dirs[invocation].(manifest := Some(document))];
      RunSnoc(digest, old(world), trace, Advance(a, insert));
      trace := trace + [Advance(a, insert)];
      world := Step(digest, world, Advance(a, insert));
      if insert.Fail? {
        return Err(Interrupted), trace;
      }
      var record := CreateSeal(SealRow(a, invocation, key, digest(document)));
      match record
      case Err(e) => return Err(e), trace;
      case Ok(row) => return Ok(Sealed(row, document)), trace;
    }

    /** The idempotency lookup, the existence check, the lock and the exclusive mkdir.  `None`
        means this call created the directory and goes on. */
    method Prepare(digest: Document -> Digest, a: nat, key: Key, invocation: Invocation, c: Choices)
      returns (done: Option<Result<Sealed, SealError>>, ghost trace: seq<Event>)
      requires Valid() && Invariant(digest, world) && a !in world.attempts
      modifies this
      ensures Valid() && world == Run(digest, old(world), trace) && a in world.attempts && rows == old(rows)
      ensures done.Some? ==> dirs == old(dirs)
      ensures done.Some? ==>
        world.attempts[a].phase == if done.value.Ok? then Returned(done.value.value) else Raised(done.value.error)
      ensures done.None? ==> dirs == old(dirs)[invocation := Directory(a, None)] && invocation !in old(dirs)
      ensures done.None? ==> world.attempts[a] == Attempt(key, invocation, true, false, Assembling)
      ensures FindByKey(old(rows), key).Some? && c.lookup.Proceed? ==>
        done == Some(Reconstructed(digest, old(dirs), FindByKey(old(rows), key).value))
      ensures FindByKey(old(rows), key).None? && invocation !in old(dirs) && c.AllProceed() ==> done.None?
      ensures done.None? ==> FindByKey(old(rows), key).None? && invocation !in old(dirs)
                             && c.lookup.Proceed? && c.probe.Proceed? && c.lock.Proceed? && c.mkdir.Proceed?
      ensures done.Some? && done.value.Ok? ==> FindByKey(old(rows), key).Some? && c.lookup.Proceed?
    {
      trace := [Start(a, key, invocation)];
      RunSnoc(digest, world, [], trace[0]);
      world := Step(digest, world, trace[0]);
      ghost var first := old(world);

      trace := Noted(digest, first, trace, a, c.lookup);
      if c.lookup.Fail? { return Some(Err(Interrupted)), trace; }
      var existing := FindByKey(rows, key);
      if existing.Some? {
        return Some(Reconstructed(digest, dirs, existing.value)), trace;
      }

      trace := Noted(digest, first, trace, a, c.probe);
      if c.probe.Fail? { return Some(Err(Interrupted)), trace; }
      if invocation in dirs { return Some(Err(DirectoryExists)), trace; }

      trace := Noted(digest, first, trace, a, c.lock);
      if c.lock.Fail? { return Some(Err(Interrupted)), trace; }

      trace := Noted(digest, first, trace, a, c.mkdir);
      if c.mkdir.Fail? { return Some(Err(Interrupted)), trace; }
      dirs := dirs[invocation := Directory(a, None)];
      done := None;
    }

    /** The tail of the call: roll back or clean up after a lost key race, and answer. */
    method Conclude(digest: Document -> Digest, a: nat, invocation: Invocation,
                    r: Result<Sealed, SealError>, remove: Choice)
      returns (answer: Result<Sealed, SealError>, ghost trace: seq<Event>)
      requires Valid() && a in world.attempts && world.attempts[a].created && world.attempts[a].invocation == invocation
      requires r.Ok? && r.value.row.seal != a ==>
        world.attempts[a].phase == Adopting(r.value.row) && r.value.row.invocation != invocation
      requires r.Ok? && r.value.row.seal == a ==> world.attempts[a].phase == Returned(r.value)
      requires r.Err? ==> world.attempts[a].phase == RollingBack(r.error)
      modifies this
      ensures Valid() && world == Run(digest, old(world), trace) && rows == old(rows) && a in world.attempts
      ensures world.attempts[a].phase == if answer.Ok? then Returned(answer.value) else Raised(answer.error)
      ensures r.Ok? && r.value.row.seal == a ==> answer == r && dirs == old(dirs)
      ensures r.Err? ==> answer == r && dirs == if remove.Proceed? then old(dirs) - {invocation} else old(dirs)
    {
      trace := [];
      if r.Ok? && r.value.row.seal == a { return r, trace; }
      trace := Noted(digest, world, trace, a, remove);
      if remove.Proceed? { dirs := dirs - {invocation}; }
      match r
      case Ok(sealed) => answer := Reconstructed(digest, dirs, sealed.row);
      case Err(_) => answer := r;
    }

    /** One whole call of `seal_invocation` with no other attempt in between is a run of the protocol
        above.  A sealed key is answered without touching anything; a fresh key and a fresh invocation
        get sealed, with the manifest in the new directory; and nothing but a fault of its own or a
        directory without a seal keeps a call from returning, which then leaves no row. */
    method SealInvocation(digest: Document -> Digest, a: nat, key: Key, invocation: Invocation, c: Choices)
      returns (r: Result<Sealed, SealError>, ghost trace: seq<Event>)
      requires Valid() && Invariant(digest, world) && a !in world.attempts
      modifies this
      ensures Valid() && world == Run(digest, old(world), trace) && a in world.attempts
      ensures world.attempts[a].phase == if r.Ok? then Returned(r.value) else Raised(r.error)
      ensures FindByKey(old(rows), key).Some? && c.lookup.Proceed? ==>
        r == Reconstructed(digest, old(dirs), FindByKey(old(rows), key).value)
        && rows == old(rows) && dirs == old(dirs)
      ensures FindByKey(old(rows), key).None? && invocation !in old(dirs) && c.AllProceed() ==>
        r.Ok? && SealedBy(digest, a, key, invocation, c.assemble, r.value) && rows == old(rows) + [r.value.row]
        && dirs == old(dirs)[invocation := Directory(a, Some(r.value.manifest))]
      ensures r.Ok? <==>
        c.lookup.Proceed? && (FindByKey(old(rows), key).Some? || (invocation !in old(dirs) && c.AllProceed()))
      ensures r.Err? ==> rows == old(rows) && (c.remove.Proceed? ==> dirs == old(dirs))
    {
      ghost var first := world;
      FreshRowFits(digest, first, a, key, invocation);
      var done;
      done, trace := Prepare(digest, a, key, invocation, c);
      if done.Some? { return done.value, trace; }
      RunKeepsInvariant(digest, first, trace);
      ghost var middle := world;
      ghost var more;
      assert dirs - {invocation} == old(dirs);
      r, more := AssembleAndInsert(digest, a, key, invocation, c.assemble, c.insert);
      RunKeepsInvariant(digest, middle, more);
      RunAppend(digest, first, trace, more);
      trace := trace + more;
      assert AttemptSound(digest, world, a);
      hide Invariant, AttemptSound, Reconstructed, Clashes, FindByKey, Run;
      r, more := Conclude(digest, a, invocation, r, c.remove);
      RunAppend(digest, first, trace, more);
      trace := trace + more;
    }

    /** Records one protocol step of attempt `a` in the proof state. */
    ghost method Noted(digest: Document -> Digest, start: World, trace: seq<Event>, a: nat, choice: Choice)
      returns (longer: seq<Event>)
      requires world == Run(digest, start, trace)
      modifies this`world
      ensures world == Step(digest, old(world), Advance(a, choice)) == Run(digest, start, longer)
    {
      RunSnoc(digest, start, trace, Advance(a, choice));
      world := Step(digest, world, Advance(a, choice));
      longer := trace + [Advance(a, choice)];
    }
  }
}
