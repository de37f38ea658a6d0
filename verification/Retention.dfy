/** The retention sweep over state backups and run directories
    (src/model_forge/application/retention.py).  Ages and windows are in microseconds. */
module Retention {
  import opened Wrappers
  import opened Promotion
  import opened BackupNames
  import opened Sequences

  const TARGETS: seq<string> := [MEMORIES, STATE_DB]

  /** The glob `<target>.bak-*`. */
  predicate Matches(target: string, name: string) {
    target + ".bak-" <= name
  }

  function KeyInstant(name: string): int {
    match ParseBackupStamp(name)
    case Some(t) => Instant(t)
    case None => Instant(EARLIEST)
  }

  /** The sort key of the source: time first, then the name. */
  predicate KeyLess(a: string, b: string) {
    KeyInstant(a) < KeyInstant(b) || (KeyInstant(a) == KeyInstant(b) && TextLess(a, b))
  }

  datatype Rule = Newest | Young | Expired
  datatype Decision = Decision(path: string, rule: Rule)

  function SortByKey(s: seq<string>): (r: seq<string>)
    ensures multiset(r) == multiset(s)
  {
    SortedBy(s, KeyLess)
  }

  function Backups(listing: seq<string>, target: string): (r: seq<string>)
    ensures forall n :: n in r <==> n in listing && Matches(target, n)
  {
    if listing == [] then []
    else
      assert listing == [listing[0]] + listing[1..];
      (if Matches(target, listing[0]) then [listing[0]] else []) + Backups(listing[1..], target)
  }

  function Decide(name: string, newest: string, now: int, window: int): Decision {
    if name == newest then Decision(name, Newest)
    else if ParseBackupStamp(name).None? || now - KeyInstant(name) <= window then Decision(name, Young)
    else Decision(name, Expired)
  }

  /** The decisions for one target, oldest backup first. */
  function DecisionsFor(listing: seq<string>, target: string, now: int, window: int): seq<Decision> {
    var stamped := SortByKey(Backups(listing, target));
    seq(|stamped|, i requires 0 <= i < |stamped| => Decide(stamped[i], NewestOf(listing, target), now, window))
  }

  function DecisionsOf(listing: seq<string>, targets: seq<string>, now: int, window: int): seq<Decision> {
    if targets == [] then []
    else
      var last := |targets| - 1;
      DecisionsOf(listing, targets[..last], now, window) + DecisionsFor(listing, targets[last], now, window)
  }

  method DecideTarget(listing: seq<string>, target: string, now: int, window: int) returns (entries: seq<Decision>)
    ensures entries == DecisionsFor(listing, target, now, window)
  {
    hide SortByKey, Backups, Decide;
    entries := [];
    var stamped := SortByKey(Backups(listing, target));
    if stamped == [] { return; }
    var newest := stamped[|stamped| - 1];
    var i := 0;
    while i < |stamped|
      invariant 0 <= i <= |stamped|
      invariant entries == DecisionsFor(listing, target, now, window)[..i]
    {
      entries := entries + [Decide(stamped[i], newest, now, window)];
      i := i + 1;
    }
  }

  lemma DecisionsNext(listing: seq<string>, targets: seq<string>, k: nat, now: int, window: int)
    requires k < |targets|
    ensures DecisionsOf(listing, targets[..k + 1], now, window)
         == DecisionsOf(listing, targets[..k], now, window) + DecisionsFor(listing, targets[k], now, window)
  {
    assert targets[..k + 1][..k] == targets[..k];
  }

  /** `_evaluate_backups`: two loops, one over the targets and one over the sorted backups. */
  method EvaluateBackups(listing: seq<string>, now: int, window: int) returns (entries: seq<Decision>)
    ensures entries == DecisionsOf(listing, TARGETS, now, window)
  {
    entries := [];
    var k := 0;
    while k < |TARGETS|
      invariant 0 <= k <= |TARGETS|
      invariant entries == DecisionsOf(listing, TARGETS[..k], now, window)
    {
      var more := DecideTarget(listing, TARGETS[k], now, window);
      DecisionsNext(listing, TARGETS, k, now, window);
      entries := entries + more;
      k := k + 1;
    }
    assert TARGETS[..k] == TARGETS;
  }

  /** The last of the sorted backups of a target. */
  function NewestOf(listing: seq<string>, target: string): string {
    var s := SortByKey(Backups(listing, target));
    if s == [] then "" else s[|s| - 1]
  }

  // ---------------------------------------------------------------- what a sweep removes

  lemma KeyOrder(a: string, b: string, c: string)
    ensures KeyLess(a, b) || a == b || KeyLess(b, a)
    ensures !(KeyLess(a, b) && KeyLess(b, a))
    ensures KeyLess(a, b) && KeyLess(b, c) ==> KeyLess(a, c)
  {
    TextTotal(a, b);
    TextAsymmetric(a, b);
    if TextLess(a, b) && TextLess(b, c) { TextTransitive(a, b, c); }
  }

  lemma SortAscending(s: seq<string>)
    ensures AscendingBy(SortByKey(s), KeyLess)
  {
    forall a, b | a in s && b in s ensures !(KeyLess(a, b) && KeyLess(b, a)) { KeyOrder(a, b, a); }
    forall a, b, c | a in s && b in s && c in s && KeyLess(a, c) ensures KeyLess(a, b) || KeyLess(b, c) {
      KeyOrder(c, b, c);
      KeyOrder(a, c, b);
    }
    SortedAscending(s, KeyLess, s);
  }

  /** Some name of the set comes later. */
  ghost predicate Exceeded(names: set<string>, n: string) {
    exists m :: m in names && KeyLess(n, m)
  }

  function Names(s: seq<string>): set<string> {
    set m | m in s
  }

  function BackupSet(listing: seq<string>, target: string): set<string> {
    set m | m in listing && Matches(target, m)
  }

  lemma LastIsGreatest(s: seq<string>, n: string)
    requires AscendingBy(s, KeyLess) && n in s
    ensures n == s[|s| - 1] <==> !Exceeded(Names(s), n)
  {
    var last := s[|s| - 1];
    var i :| 0 <= i < |s| && s[i] == n;
    KeyOrder(n, n, n);
    if n == last {
      forall m | m in s ensures !KeyLess(n, m) {
        var j :| 0 <= j < |s| && s[j] == m;
      }
    } else {
      KeyOrder(n, last, n);
      assert KeyLess(n, last) && last in Names(s);
    }
  }

  lemma SortedBackups(listing: seq<string>, target: string) returns (s: seq<string>)
    ensures AscendingBy(s, KeyLess) && Names(s) == BackupSet(listing, target)
    ensures s != [] ==> NewestOf(listing, target) == s[|s| - 1]
  {
    s := SortByKey(Backups(listing, target));
    SortAscending(Backups(listing, target));
    SortedMembers(Backups(listing, target), KeyLess);
  }

  /** The newest backup of a target is the one no other backup of it exceeds. */
  lemma NewestIsGreatest(listing: seq<string>, target: string, n: string)
    requires n in listing && Matches(target, n)
    ensures n == NewestOf(listing, target) <==> !Exceeded(BackupSet(listing, target), n)
  {
    var s := SortedBackups(listing, target);
    assert n in BackupSet(listing, target);
    assert n in Names(s);
    LastIsGreatest(s, n);
  }

  /** What the sweep may remove: a backup with a readable stamp, older than the window, that is
      not the newest of its target. */
  ghost predicate Prunable(names: set<string>, n: string, now: int, window: int) {
    exists t, m :: t in TARGETS && Matches(t, n) && m in names && Matches(t, m) && KeyLess(n, m)
                   && ParseBackupStamp(n).Some? && now - KeyInstant(n) > window
  }

  lemma ExpiredIffPrunable(listing: seq<string>, t: string, n: string, now: int, window: int)
    requires t in TARGETS && n in listing && Matches(t, n)
    ensures Decide(n, NewestOf(listing, t), now, window).rule == Expired
       <==> Prunable((set m | m in listing), n, now, window)
  {
    NewestIsGreatest(listing, t, n);
    if Prunable((set m | m in listing), n, now, window) {
      var u, m :| u in TARGETS && Matches(u, n) && m in listing && Matches(u, m) && KeyLess(n, m);
      TargetUnique(t, u, n);
    }
  }

  /** A name is a backup of at most one target. */
  lemma TargetUnique(t: string, u: string, n: string)
    requires t in TARGETS && u in TARGETS && Matches(t, n) && Matches(u, n)
    ensures t == u
  {
    assert (t + ".bak-")[0] == n[0] == (u + ".bak-")[0];
    assert MEMORIES[0] == 'm' && STATE_DB[0] == 's';
    assert t == MEMORIES || t == STATE_DB;
    assert u == MEMORIES || u == STATE_DB;
  }

  lemma DecisionsForMembers(listing: seq<string>, t: string, now: int, window: int, d: Decision)
    ensures d in DecisionsFor(listing, t, now, window) <==>
      d.path in listing && Matches(t, d.path) && d == Decide(d.path, NewestOf(listing, t), now, window)
  {
    var stamped, ds := SortByKey(Backups(listing, t)), DecisionsFor(listing, t, now, window);
    SortedMembers(Backups(listing, t), KeyLess);
    if d.path in stamped && d == Decide(d.path, NewestOf(listing, t), now, window) {
      var i :| 0 <= i < |stamped| && stamped[i] == d.path;
      assert ds[i] == d;
    }
    if d in ds {
      var i :| 0 <= i < |ds| && ds[i] == d;
      assert stamped[i] in stamped;
    }
  }

  lemma DecisionsOfMembers(listing: seq<string>, now: int, window: int, d: Decision)
    ensures d in DecisionsOf(listing, TARGETS, now, window)
       <==> exists t :: t in TARGETS && d in DecisionsFor(listing, t, now, window)
  {
    assert TARGETS[..1] == [MEMORIES] && [MEMORIES][..0] == [];
    assert DecisionsOf(listing, [MEMORIES], now, window) == DecisionsFor(listing, MEMORIES, now, window);
    assert MEMORIES in TARGETS && STATE_DB in TARGETS;
    assert forall t | t in TARGETS :: t == MEMORIES || t == STATE_DB;
  }

  /** The names the sweep decides to remove are exactly the prunable ones. */
  lemma ExpiredDecisions(listing: seq<string>, now: int, window: int, n: string)
    ensures Decision(n, Expired) in DecisionsOf(listing, TARGETS, now, window)
       <==> n in listing && Prunable((set m | m in listing), n, now, window)
  {
    var d := Decision(n, Expired);
    DecisionsOfMembers(listing, now, window, d);
    forall t | t in TARGETS
      ensures d in DecisionsFor(listing, t, now, window) <==>
        n in listing && Matches(t, n) && Prunable((set m | m in listing), n, now, window)
    {
      DecisionsForMembers(listing, t, now, window, d);
      if n in listing && Matches(t, n) { ExpiredIffPrunable(listing, t, n, now, window); }
    }
  }

  /** `_evaluate_backups` and the deletion loop of `apply_retention` on one profile directory;
      removals in `stuck` fail and are only reported. */
  method ApplyRetention(profile: ProfileDirectory, listing: seq<string>, now: int, window: int, dryRun: bool, stuck: set<string>)
    requires forall n :: n in listing <==> n in profile.entries
    modifies profile`entries
    ensures profile.entries == if dryRun then old(profile.entries) else Swept(old(profile.entries), now, window, stuck)
  {
    ghost var before := profile.entries;
    var decisions := EvaluateBackups(listing, now, window);
    if dryRun { return; }
    var i := 0;
    while i < |decisions|
      invariant 0 <= i <= |decisions|
      invariant profile.entries == Kept(before, decisions[..i], stuck)
    {
      var d := decisions[i];
      KeptStep(before, decisions, i, stuck);
      if d.rule == Expired && d.path !in stuck {
        profile.entries := profile.entries - {d.path};
      }
      i := i + 1;
    }
    assert decisions[..i] == decisions;
    KeptIsSwept(before, listing, now, window, stuck);
  }

  lemma KeptStep(entries: Listing, ds: seq<Decision>, i: nat, stuck: set<string>)
    requires i < |ds|
    ensures Kept(entries, ds[..i + 1], stuck) ==
      if ds[i].rule == Expired && ds[i].path !in stuck then Kept(entries, ds[..i], stuck) - {ds[i].path}
      else Kept(entries, ds[..i], stuck)
  {
    assert ds[..i + 1] == ds[..i] + [ds[i]];
  }

  lemma KeptIsSwept(entries: Listing, listing: seq<string>, now: int, window: int, stuck: set<string>)
    requires forall n :: n in listing <==> n in entries
    ensures Kept(entries, DecisionsOf(listing, TARGETS, now, window), stuck) == Swept(entries, now, window, stuck)
  {
    assert (set m | m in listing) == entries.Keys;
    forall n | n in entries
      ensures Decision(n, Expired) in DecisionsOf(listing, TARGETS, now, window)
         <==> Prunable(entries.Keys, n, now, window)
    {
      ExpiredDecisions(listing, now, window, n);
    }
  }

  ghost function Kept(entries: Listing, ds: seq<Decision>, stuck: set<string>): Listing {
    map n | n in entries && (n in stuck || Decision(n, Expired) !in ds) :: entries[n]
  }

  /** The profile after a sweep at `now`. */
  ghost function Swept(entries: Listing, now: int, window: int, stuck: set<string>): Listing {
    map n | n in entries && (n in stuck || !Prunable(entries.Keys, n, now, window)) :: entries[n]
  }

  // ---------------------------------------------------------------- promotions and sweeps over time

  /** One profile directory over its life: the listing, the time of the last promotion attempt,
      and for each target the backup that holds the state replaced most recently. */
  datatype History = History(entries: Listing, clock: int, latest: map<string, (string, Content)>)

  /** A promotion attempt either succeeds with what was staged or fails and changes nothing;
      sweeps may run at any time, with any window, and some removals may fail. */
  datatype Happening =
    | Promote(at: Stamp, hex: PerTarget, outcome: Option<Staged>)
    | Sweep(now: int, window: int, stuck: set<string>)

  function Suffixes(at: Stamp, hex: PerTarget): PerTarget {
    PerTarget(BackupSuffix(at, hex.memories), BackupSuffix(at, hex.stateDb))
  }

  predicate HexTags(hex: PerTarget) {
    IsHex8(hex.memories) && IsHex8(hex.stateDb)
  }

  ghost predicate Timely(h: History, e: Happening) {
    e.Promote? ==> ValidStamp(e.at) && Instant(e.at) > h.clock && HexTags(e.hex)
  }

  /** Records the backup of every target that was there and is replaced. */
  ghost function Replaced(h: History, staged: Staged, suffix: PerTarget, target: string): map<string, (string, Content)> {
    if target in TargetNames(staged) && target in h.entries
    then map[target := (BackupName(target, suffix), h.entries[target])]
    else if target in h.latest then map[target := h.latest[target]]
    else map[]
  }

  /** An attempt at a time not after the previous one does not happen: the lock serialises
      promotions and the clock advances between them. */
  ghost function After(h: History, e: Happening): History {
    if !Timely(h, e) then h
    else
      match e
      case Sweep(now, window, stuck) => h.(entries := Swept(h.entries, now, window, stuck))
      case Promote(at, hex, outcome) =>
        if outcome.None? then h.(clock := Instant(at))
        else
          var suffix := Suffixes(at, hex);
          History(Promoted(h.entries, outcome.value, suffix), Instant(at),
                  Replaced(h, outcome.value, suffix, MEMORIES) + Replaced(h, outcome.value, suffix, STATE_DB))
  }

  ghost function Lived(h: History, es: seq<Happening>): History
    decreases |es|
  {
    if es == [] then h else Lived(After(h, es[0]), es[1..])
  }

  /** No backup name in the directory claims a time after the last promotion attempt. */
  ghost predicate NoFutureBackups(h: History) {
    Instant(EARLIEST) <= h.clock && forall n, t | n in h.entries && t in TARGETS && Matches(t, n) :: KeyInstant(n) <= h.clock
  }

  /** The recorded backup is there, unchanged, and no backup of its target exceeds it. */
  ghost predicate LatestKept(h: History, t: string) {
    t in h.latest ==>
      && t in TARGETS && h.latest[t].0 in h.entries && h.entries[h.latest[t].0] == h.latest[t].1
      && Matches(t, h.latest[t].0)
      && forall n | n in h.entries && Matches(t, n) :: !KeyLess(h.latest[t].0, n)
  }

  ghost predicate Sound(h: History) {
    NoFutureBackups(h) && h.latest.Keys <= {MEMORIES, STATE_DB} && LatestKept(h, MEMORIES) && LatestKept(h, STATE_DB)
  }

  lemma PrintedMatches(target: string, at: Stamp, hex: PerTarget)
    requires ValidStamp(at)
    ensures Matches(target, BackupName(target, Suffixes(at, hex)))
  {
  }

  lemma PrintedName(target: string, at: Stamp, hex: PerTarget)
    requires target in TARGETS && ValidStamp(at) && HexTags(hex)
    ensures ParseBackupStamp(BackupName(target, Suffixes(at, hex))) == Some(at)
    ensures KeyInstant(BackupName(target, Suffixes(at, hex))) == Instant(at)
  {
    TargetsPlain(target);
    ParsePrinted(target, at, hex.For(target));
  }

  lemma TargetsPlain(t: string)
    requires t in TARGETS
    ensures t != "" && '\n' !in t
  {
    assert t == MEMORIES || t == STATE_DB;
  }

  /** A promotion later than every backup in place takes backup names that are not in use. */
  lemma PromoteIsFresh(h: History, at: Stamp, hex: PerTarget)
    requires NoFutureBackups(h) && ValidStamp(at) && HexTags(hex) && Instant(at) > h.clock
    ensures FreshSuffix(h.entries, Suffixes(at, hex))
  {
    forall t | t in TARGETS ensures BackupName(t, Suffixes(at, hex)) !in h.entries {
      PrintedName(t, at, hex);
      PrintedMatches(t, at, hex);
    }
    assert MEMORIES in TARGETS && STATE_DB in TARGETS;
  }

  lemma SweepKeepsSound(h: History, now: int, window: int, stuck: set<string>)
    requires Sound(h)
    ensures Sound(After(h, Sweep(now, window, stuck)))
  {
    forall t | t in h.latest ensures !Prunable(h.entries.Keys, h.latest[t].0, now, window) {
      var n := h.latest[t].0;
      assert LatestKept(h, t);
      if Prunable(h.entries.Keys, n, now, window) {
        var u, m :| u in TARGETS && Matches(u, n) && m in h.entries && Matches(u, m) && KeyLess(n, m);
        TargetUnique(t, u, n);
        assert false;
      }
    }
  }

  /** The canonical names are not backup names. */
  lemma CanonicalIsNoBackup(t: string)
    requires t in TARGETS
    ensures !Matches(t, MEMORIES) && !Matches(t, STATE_DB)
  {
  }

  /** The backups of a target after a promotion: those from before, and its own new one exactly
      when the target was there and was replaced. */
  lemma BackupsAfterPromote(h: History, at: Stamp, hex: PerTarget, staged: Staged, t: string, n: string)
    requires NoFutureBackups(h) && ValidStamp(at) && HexTags(hex) && Instant(at) > h.clock
    requires t in TARGETS && Matches(t, n)
    ensures var suffix := Suffixes(at, hex);
      var after := Promoted(h.entries, staged, suffix);
      && (n in after <==> n in h.entries
                          || (n == BackupName(t, suffix) && t in h.entries && t in TargetNames(staged)))
      && (n in h.entries ==> n in after && after[n] == h.entries[n])
      && (n in after && n !in h.entries ==> after[n] == h.entries[t])
  {
    var suffix := Suffixes(at, hex);
    PromoteIsFresh(h, at, hex);
    PromotedMeaning(h.entries, staged, suffix);
    CanonicalIsNoBackup(t);
    PrintedMatches(MEMORIES, at, hex);
    PrintedMatches(STATE_DB, at, hex);
    assert t == MEMORIES || t == STATE_DB;
    if n == BackupName(MEMORIES, suffix) { TargetUnique(t, MEMORIES, n); }
    if n == BackupName(STATE_DB, suffix) { TargetUnique(t, STATE_DB, n); }
  }

  lemma PromoteKeepsNoFuture(h: History, at: Stamp, hex: PerTarget, staged: Staged)
    requires NoFutureBackups(h) && ValidStamp(at) && HexTags(hex) && Instant(at) > h.clock
    ensures NoFutureBackups(After(h, Promote(at, hex, Some(staged))))
  {
    var after := After(h, Promote(at, hex, Some(staged)));
    forall n, t | n in after.entries && t in TARGETS && Matches(t, n) ensures KeyInstant(n) <= after.clock {
      BackupsAfterPromote(h, at, hex, staged, t, n);
      PrintedName(t, at, hex);
    }
  }

  /** The record `latest` is what it claims to be: after a successful timely promotion it names,
      for each replaced target, the content that was in place just before. */
  lemma LatestIsWhatWasReplaced(h: History, at: Stamp, hex: PerTarget, staged: Staged, t: string)
    requires Timely(h, Promote(at, hex, Some(staged))) && t in TargetNames(staged) && t in h.entries
    ensures var after := After(h, Promote(at, hex, Some(staged)));
      t in after.latest && after.latest[t] == (BackupName(t, Suffixes(at, hex)), h.entries[t])
  {
    assert t == MEMORIES || t == STATE_DB;
    assert MEMORIES[0] == 'm' && STATE_DB[0] == 's';
  }

  /** A replaced target's new backup exceeds all others of its target. */
  lemma NewBackupIsLatest(h: History, at: Stamp, hex: PerTarget, staged: Staged, t: string)
    requires NoFutureBackups(h) && ValidStamp(at) && HexTags(hex) && Instant(at) > h.clock
    requires t in TargetNames(staged) && t in h.entries
    ensures LatestKept(After(h, Promote(at, hex, Some(staged))), t)
  {
    var after := After(h, Promote(at, hex, Some(staged)));
    var mine := BackupName(t, Suffixes(at, hex));
    assert t == MEMORIES || t == STATE_DB;
    assert t in TARGETS;
    LatestIsWhatWasReplaced(h, at, hex, staged, t);
    PrintedName(t, at, hex);
    PrintedMatches(t, at, hex);
    PromoteIsFresh(h, at, hex);
    BackupsAfterPromote(h, at, hex, staged, t, mine);
    KeyOrder(mine, mine, mine);
    forall n | n in after.entries && Matches(t, n) ensures !KeyLess(mine, n) {
      BackupsAfterPromote(h, at, hex, staged, t, n);
    }
  }

  /** A target that is not replaced keeps its backups. */
  lemma OldBackupStaysLatest(h: History, at: Stamp, hex: PerTarget, staged: Staged, t: string)
    requires Sound(h) && ValidStamp(at) && HexTags(hex) && Instant(at) > h.clock
    requires t in TARGETS && !(t in TargetNames(staged) && t in h.entries)
    ensures LatestKept(After(h, Promote(at, hex, Some(staged))), t)
  {
    var after := After(h, Promote(at, hex, Some(staged)));
    assert t == MEMORIES || t == STATE_DB;
    assert MEMORIES[0] == 'm' && STATE_DB[0] == 's';
    assert LatestKept(h, t);
    if t in after.latest {
      BackupsAfterPromote(h, at, hex, staged, t, h.latest[t].0);
      forall n | n in after.entries && Matches(t, n) ensures !KeyLess(h.latest[t].0, n) {
        BackupsAfterPromote(h, at, hex, staged, t, n);
      }
    }
  }

  lemma PromoteKeepsLatest(h: History, at: Stamp, hex: PerTarget, staged: Staged, t: string)
    requires Sound(h) && ValidStamp(at) && HexTags(hex) && Instant(at) > h.clock && t in TARGETS
    ensures LatestKept(After(h, Promote(at, hex, Some(staged))), t)
  {
    if t in TargetNames(staged) && t in h.entries {
      NewBackupIsLatest(h, at, hex, staged, t);
    } else {
      OldBackupStaysLatest(h, at, hex, staged, t);
    }
  }

  lemma PromoteKeepsSound(h: History, at: Stamp, hex: PerTarget, staged: Staged)
    requires Sound(h) && Timely(h, Promote(at, hex, Some(staged)))
    ensures Sound(After(h, Promote(at, hex, Some(staged))))
  {
    assert MEMORIES in TARGETS && STATE_DB in TARGETS;
    PromoteKeepsNoFuture(h, at, hex, staged);
    PromoteKeepsLatest(h, at, hex, staged, MEMORIES);
    PromoteKeepsLatest(h, at, hex, staged, STATE_DB);
  }

  lemma FailedAttemptKeepsSound(h: History, clock: int)
    requires Sound(h) && h.clock <= clock
    ensures Sound(h.(clock := clock))
  {
  }

  lemma AfterKeepsSound(h: History, e: Happening)
    requires Sound(h)
    ensures Sound(After(h, e))
  {
    if !Timely(h, e) {
    } else if e.Sweep? {
      SweepKeepsSound(h, e.now, e.window, e.stuck);
    } else if e.outcome.Some? {
      PromoteKeepsSound(h, e.at, e.hex, e.outcome.value);
    } else {
      FailedAttemptKeepsSound(h, Instant(e.at));
    }
  }

  lemma {:induction false} LivedKeepsSound(h: History, es: seq<Happening>)
    requires Sound(h)
    ensures Sound(Lived(h, es))
    decreases |es|
  {
    if es != [] {
      AfterKeepsSound(h, es[0]);
      LivedKeepsSound(After(h, es[0]), es[1..]);
    }
  }

  /** Over any sequence of successful and failed promotions and of sweeps, the backup of the state
      replaced most recently is there, with that content, for every target ever replaced.  At the
      start the directory may hold any backups that are not from the future. */
  lemma LatestReplacedStateSurvives(h: History, es: seq<Happening>, t: string)
    requires NoFutureBackups(h) && h.latest == map[] && t in Lived(h, es).latest
    ensures var end := Lived(h, es);
      end.latest[t].0 in end.entries && end.entries[end.latest[t].0] == end.latest[t].1
  {
    LivedKeepsSound(h, es);
    assert t in {MEMORIES, STATE_DB};
  }
}
