/** Fencing tokens and the project-role state lock
    (src/model_forge/application/run_profile_assembler.py). */
module StateLock {
  import opened Wrappers

  type Invocation = string
  type Profile = string

  datatype LockRow = LockRow(invocation: Invocation, token: nat, acquiredAt: int, expires: int)

  datatype LockError = LockHeld(holder: Invocation) | NoLock | TokenMismatch

  // ---------------------------------------------------------------- what one call does

  function NextToken(tokens: map<Invocation, nat>, invocation: Invocation): nat {
    (if invocation in tokens then tokens[invocation] else 0) + 1
  }

  /** Acquire refuses only an unexpired lease of another invocation. */
  function Acquired(
    locks: map<Profile, LockRow>, profile: Profile, invocation: Invocation, token: nat, now: int, lease: int
  ): Result<map<Profile, LockRow>, LockError>
  {
    if profile in locks && locks[profile].expires > now && locks[profile].invocation != invocation
    then Err(LockHeld(locks[profile].invocation))
    else Ok(locks[profile := LockRow(invocation, token, now, now + lease)])
  }

  /** An owner-checked release; a stale owner removes nothing. */
  function Released(
    locks: map<Profile, LockRow>, profile: Profile, invocation: Invocation, token: nat
  ): map<Profile, LockRow>
  {
    if profile in locks && locks[profile].invocation == invocation && locks[profile].token == token
    then locks - {profile}
    else locks
  }

  function Renewed(
    locks: map<Profile, LockRow>, profile: Profile, invocation: Invocation, token: nat, now: int, extension: int
  ): Result<map<Profile, LockRow>, LockError>
  {
    if profile !in locks then Err(NoLock)
    else if locks[profile].invocation != invocation || locks[profile].token != token then Err(TokenMismatch)
    else Ok(locks[profile := locks[profile].(expires := now + extension)])
  }

  /** The lock and token tables of `RunSealStore`; each method is one immediate transaction. */
  class RunSealStore {
    var tokens: map<Invocation, nat>
    var locks: map<Profile, LockRow>

    constructor ()
      ensures tokens == map[] && locks == map[]
    {
      tokens, locks := map[], map[];
    }

    method IssueFencingToken(invocation: Invocation) returns (token: nat)
      modifies this`tokens
      ensures token == NextToken(old(tokens), invocation)
      ensures tokens == old(tokens)[invocation := token]
    {
      var current := 0;
      if invocation in tokens {
        current := tokens[invocation];
      }
      token := current + 1;
      tokens := tokens[invocation := token];
    }

    method AcquireStateLock(profile: Profile, invocation: Invocation, token: nat, now: int, lease: int)
      returns (r: Result<(), LockError>)
      modifies this`locks
      ensures match Acquired(old(locks), profile, invocation, token, now, lease)
        case Ok(updated) => r == Ok(()) && locks == updated
        case Err(e) => r == Err(e) && locks == old(locks)
    {
      if profile in locks {
        var row := locks[profile];
        if row.expires > now && row.invocation != invocation {
          return Err(LockHeld(row.invocation));
        }
        locks := locks[profile := row.(invocation := invocation, token := token, acquiredAt := now, expires := now + lease)];
      } else {
        locks := locks[profile := LockRow(invocation, token, now, now + lease)];
      }
      r := Ok(());
    }

    method ReleaseStateLock(profile: Profile, invocation: Invocation, token: nat)
      modifies this`locks
      ensures locks == Released(old(locks), profile, invocation, token)
    {
      if profile in locks {
        var row := locks[profile];
        if row.invocation == invocation && row.token == token {
          locks := locks - {profile};
        }
      }
    }

    method RenewStateLease(profile: Profile, invocation: Invocation, token: nat, now: int, extension: int)
      returns (r: Result<(), LockError>)
      modifies this`locks
      ensures match Renewed(old(locks), profile, invocation, token, now, extension)
        case Ok(updated) => r == Ok(()) && locks == updated
        case Err(e) => r == Err(e) && locks == old(locks)
    {
      if profile !in locks { return Err(NoLock); }
      var row := locks[profile];
      if row.invocation != invocation || row.token != token { return Err(TokenMismatch); }
      locks := locks[profile := row.(expires := now + extension)];
      r := Ok(());
    }

    /** The `state_lock` context manager.  The body may do anything to both tables; afterwards the
        row is released exactly when it still carries this invocation and token. */
    method WithStateLock(profile: Profile, invocation: Invocation, now: int, lease: int,
                         body: (map<Invocation, nat>, map<Profile, LockRow>) -> (map<Invocation, nat>, map<Profile, LockRow>))
      returns (r: Result<nat, LockError>)
      modifies this
      ensures var token := NextToken(old(tokens), invocation);
        var issued := old(tokens)[invocation := token];
        match Acquired(old(locks), profile, invocation, token, now, lease)
        case Err(e) => r == Err(e) && tokens == issued && locks == old(locks)
        case Ok(held) =>
          r == Ok(token) && tokens == body(issued, held).0 && locks == Released(body(issued, held).1, profile, invocation, token)
    {
      var token := IssueFencingToken(invocation);
      var acquired := AcquireStateLock(profile, invocation, token, now, lease);
      if acquired.Err? { return Err(acquired.error); }
      var after := body(tokens, locks);
      tokens, locks := after.0, after.1;
      ReleaseStateLock(profile, invocation, token);
      r := Ok(token);
    }
  }

  // ---------------------------------------------------------------- interleaved handles

  /** One use of `state_lock`: it issues a token, acquires once, may renew, and releases once. */
  datatype Handle = Handle(profile: Profile, invocation: Invocation, token: nat, phase: Phase)
  datatype Phase = Issued | Held | Closed

  /** The tables, every handle so far, every token issued (in order), and for each
      profile the handle that acquired it last. */
  datatype System = System(
    tokens: map<Invocation, nat>,
    locks: map<Profile, LockRow>,
    handles: map<nat, Handle>,
    issued: seq<(Invocation, nat)>,
    latest: map<Profile, nat>)

  datatype Event =
    | Issue(h: nat, profile: Profile, invocation: Invocation)
    | Acquire(h: nat, now: int, lease: int)
    | Renew(h: nat, now: int, extension: int)
    | Release(h: nat)

  /** `now` is read before the transaction, so the times of a schedule need not ascend. */
  predicate Enabled(s: System, e: Event) {
    match e
    case Issue(h, _, _) => h !in s.handles
    case Acquire(h, _, _) => h in s.handles && s.handles[h].phase == Issued
    case Renew(h, _, _) => h in s.handles && s.handles[h].phase == Held
    case Release(h) => h in s.handles && s.handles[h].phase == Held
  }

  /** A step that is not enabled changes nothing, so every event list is a schedule. */
  function Step(s: System, e: Event): System {
    if !Enabled(s, e) then s
    else
      match e
      case Issue(h, profile, invocation) =>
        var token := NextToken(s.tokens, invocation);
        s.(tokens := s.tokens[invocation := token], issued := s.issued + [(invocation, token)],
           handles := s.handles[h := Handle(profile, invocation, token, Issued)])
      case Acquire(h, now, lease) =>
        var k := s.handles[h];
        (match Acquired(s.locks, k.profile, k.invocation, k.token, now, lease)
         case Err(_) => s.(handles := s.handles[h := k.(phase := Closed)])
         case Ok(locks) =>
           s.(locks := locks, latest := s.latest[k.profile := h],
              handles := s.handles[h := k.(phase := Held)]))
      case Renew(h, now, extension) =>
        var k := s.handles[h];
        (match Renewed(s.locks, k.profile, k.invocation, k.token, now, extension)
         case Err(_) => s
         case Ok(locks) => s.(locks := locks))
      case Release(h) =>
        var k := s.handles[h];
        s.(locks := Released(s.locks, k.profile, k.invocation, k.token),
           handles := s.handles[h := k.(phase := Closed)])
  }

  function Run(s: System, es: seq<Event>): System
    decreases |es|
  {
    if es == [] then s else Run(Step(s, es[0]), es[1..])
  }

  const INITIAL := System(map[], map[], map[], [], map[])

  // ---------------------------------------------------------------- the invariant

  /** How many tokens an invocation got so far. */
  function Count(issued: seq<(Invocation, nat)>, invocation: Invocation): nat {
    if issued == [] then 0
    else Count(issued[..|issued| - 1], invocation) + if issued[|issued| - 1].0 == invocation then 1 else 0
  }

  ghost predicate CountFits(s: System, invocation: Invocation) {
    Count(s.issued, invocation) == if invocation in s.tokens then s.tokens[invocation] else 0
  }

  ghost predicate NumberFits(issued: seq<(Invocation, nat)>, i: nat)
    requires i < |issued|
  {
    issued[i].1 == Count(issued[..i], issued[i].0) + 1
  }

  /** Every token is one above the number of those issued to its invocation before. */
  ghost predicate TokensNumbered(s: System) {
    (forall invocation :: CountFits(s, invocation)) && forall i | 0 <= i < |s.issued| :: NumberFits(s.issued, i)
  }

  /** Tokens of an invocation count up from one, and every issued token is recorded once. */
  ghost predicate TokensCounted(s: System) {
    && (forall i | 0 <= i < |s.issued| :: s.issued[i].0 in s.tokens && 1 <= s.issued[i].1 <= s.tokens[s.issued[i].0])
    && (forall i, j | 0 <= i < j < |s.issued| && s.issued[i].0 == s.issued[j].0 :: s.issued[i].1 < s.issued[j].1)
  }

  ghost predicate TokenIssued(s: System, h: nat) {
    h in s.handles ==>
      s.handles[h].invocation in s.tokens && 1 <= s.handles[h].token <= s.tokens[s.handles[h].invocation]
  }

  ghost predicate Apart(s: System, h: nat, k: nat) {
    h in s.handles && k in s.handles && h != k ==>
      s.handles[h].invocation != s.handles[k].invocation || s.handles[h].token != s.handles[k].token
  }

  /** Handles carry issued tokens, no two handles the same one. */
  ghost predicate HandlesDistinct(s: System) {
    (forall h :: TokenIssued(s, h)) && (forall h, k :: Apart(s, h, k))
  }

  /** The latest acquirer of a profile is one of its handles and got past its acquire. */
  ghost predicate LatestKnown(s: System, p: Profile) {
    p in s.latest ==>
      s.latest[p] in s.handles && s.handles[s.latest[p]].profile == p && s.handles[s.latest[p]].phase != Issued
  }

  /** A lock row always names the handle that acquired it last, and that handle still holds it. */
  ghost predicate RowNamesLatest(s: System, p: Profile) {
    p in s.locks ==>
      p in s.latest && s.latest[p] in s.handles && s.handles[s.latest[p]].phase == Held
      && s.locks[p].invocation == s.handles[s.latest[p]].invocation
      && s.locks[p].token == s.handles[s.latest[p]].token
  }

  /** While the latest acquirer of a profile holds, its row is there. */
  ghost predicate LatestHasRow(s: System, p: Profile) {
    p in s.latest && s.latest[p] in s.handles && s.handles[s.latest[p]].phase == Held ==> p in s.locks
  }

  ghost predicate RowsNameLatest(s: System) {
    forall p :: LatestKnown(s, p) && RowNamesLatest(s, p) && LatestHasRow(s, p)
  }

  ghost predicate Invariant(s: System) {
    TokensNumbered(s) && TokensCounted(s) && HandlesDistinct(s) && RowsNameLatest(s)
  }

  lemma StepKeepsTokens(s: System, e: Event)
    requires TokensCounted(s)
    ensures TokensCounted(Step(s, e))
  {
  }

  lemma StepKeepsNumbers(s: System, e: Event)
    requires TokensNumbered(s)
    ensures TokensNumbered(Step(s, e))
  {
    if e.Issue? && Enabled(s, e) {
      IssueKeepsNumbers(s, e);
    } else {
      forall invocation ensures CountFits(Step(s, e), invocation) { assert CountFits(s, invocation); }
    }
  }

  lemma IssueKeepsNumbers(s: System, e: Event)
    requires TokensNumbered(s) && e.Issue? && Enabled(s, e)
    ensures TokensNumbered(Step(s, e))
  {
    var t, n := Step(s, e), |s.issued|;
    assert CountFits(s, e.invocation) && t.issued[..n] == s.issued;
    forall invocation ensures CountFits(t, invocation) { assert CountFits(s, invocation); }
    forall i | 0 <= i <= n ensures NumberFits(t.issued, i) {
      if i < n { assert NumberFits(s.issued, i) && t.issued[..i] == s.issued[..i]; }
    }
  }

  lemma StepKeepsApart(s: System, e: Event, h: nat, k: nat)
    requires TokenIssued(s, h) && TokenIssued(s, k) && Apart(s, h, k)
    ensures TokenIssued(Step(s, e), h) && Apart(Step(s, e), h, k)
  {
  }

  lemma StepKeepsHandles(s: System, e: Event)
    requires HandlesDistinct(s)
    ensures HandlesDistinct(Step(s, e))
  {
    forall h ensures TokenIssued(Step(s, e), h) {
      assert TokenIssued(s, h) && Apart(s, h, h);
      StepKeepsApart(s, e, h, h);
    }
    forall h, k ensures Apart(Step(s, e), h, k) {
      assert TokenIssued(s, h) && TokenIssued(s, k) && Apart(s, h, k);
      StepKeepsApart(s, e, h, k);
    }
  }

  lemma StepKeepsRow(s: System, e: Event, p: Profile)
    requires HandlesDistinct(s) && LatestKnown(s, p) && RowNamesLatest(s, p) && LatestHasRow(s, p)
    ensures LatestKnown(Step(s, e), p) && RowNamesLatest(Step(s, e), p) && LatestHasRow(Step(s, e), p)
  {
    if p in s.latest { assert Apart(s, s.latest[p], e.h); }
  }

  lemma StepKeepsRows(s: System, e: Event)
    requires HandlesDistinct(s) && RowsNameLatest(s)
    ensures RowsNameLatest(Step(s, e))
  {
    forall p ensures LatestKnown(Step(s, e), p) && RowNamesLatest(Step(s, e), p) && LatestHasRow(Step(s, e), p) {
      assert LatestKnown(s, p) && RowNamesLatest(s, p) && LatestHasRow(s, p);
      StepKeepsRow(s, e, p);
    }
  }

  lemma StepKeepsInvariant(s: System, e: Event)
    requires Invariant(s)
    ensures Invariant(Step(s, e))
  {
    StepKeepsNumbers(s, e);
    StepKeepsTokens(s, e);
    StepKeepsHandles(s, e);
    StepKeepsRows(s, e);
  }

  lemma {:induction false} RunKeepsInvariant(s: System, es: seq<Event>)
    requires Invariant(s)
    ensures Invariant(Run(s, es))
    decreases |es|
  {
    if es != [] {
      StepKeepsInvariant(s, es[0]);
      RunKeepsInvariant(Step(s, es[0]), es[1..]);
    }
  }

  // ---------------------------------------------------------------- main results

  /** Over every interleaving the tokens of an invocation are issued as one, two, three and so on,
      and no (invocation, token) pair is issued twice. */
  lemma TokensNeverReissued(es: seq<Event>, i: nat, j: nat)
    requires i < j < |Run(INITIAL, es).issued|
    ensures var issued := Run(INITIAL, es).issued;
      && issued[i] != issued[j] && (issued[i].0 == issued[j].0 ==> issued[i].1 < issued[j].1)
      && issued[j].1 == Count(issued[..j], issued[j].0) + 1
  {
    RunKeepsInvariant(INITIAL, es);
    assert NumberFits(Run(INITIAL, es).issued, j);
  }

  /** A release frees the lock exactly when its handle is the latest acquirer and nobody has
      released since; otherwise it changes no row. */
  lemma ReleaseFreesOnlyOwnLock(es: seq<Event>, e: Event)
    requires e.Release? && Enabled(Run(INITIAL, es), e)
    ensures var s := Run(INITIAL, es);
      var p := s.handles[e.h].profile;
      Step(s, e).locks == if p in s.locks && p in s.latest && s.latest[p] == e.h then s.locks - {p} else s.locks
  {
    RunKeepsInvariant(INITIAL, es);
    var s := Run(INITIAL, es);
    var p := s.handles[e.h].profile;
    assert LatestKnown(s, p) && RowNamesLatest(s, p);
    if p in s.latest { assert Apart(s, s.latest[p], e.h); }
  }

  /** Once another handle has acquired the profile after `h`, the release of `h` is a no-op for
      ever: the launcher's outer release after a nested promotion frees nobody's lock. */
  lemma SupersededReleaseIsNoop(prefix: seq<Event>, es: seq<Event>, h: nat)
    requires var s := Run(INITIAL, prefix);
      h in s.handles && s.handles[h].phase != Issued && s.handles[h].profile in s.latest
      && s.latest[s.handles[h].profile] != h
    ensures var t := Run(Run(INITIAL, prefix), es);
      Step(t, Release(h)).locks == t.locks
  {
    var s := Run(INITIAL, prefix);
    RunKeepsInvariant(INITIAL, prefix);
    RunKeepsInvariant(s, es);
    StaysSuperseded(s, es, h);
    var t := Run(s, es);
    var p := t.handles[h].profile;
    assert RowNamesLatest(t, p) && Apart(t, t.latest[p], h);
  }

  lemma {:induction false} StaysSuperseded(s: System, es: seq<Event>, h: nat)
    requires h in s.handles && s.handles[h].phase != Issued && s.handles[h].profile in s.latest
    requires s.latest[s.handles[h].profile] != h
    ensures var t := Run(s, es);
      h in t.handles && t.handles[h].profile == s.handles[h].profile
      && t.handles[h].profile in t.latest && t.latest[t.handles[h].profile] != h
    decreases |es|
  {
    if es != [] { StaysSuperseded(Step(s, es[0]), es[1..], h); }
  }

  /** The only events that can end an invocation's hold on a profile. */
  ghost predicate Ends(s: System, e: Event, p: Profile) {
    p in s.locks && Enabled(s, e) && e.h in s.handles && s.handles[e.h].profile == p &&
    ((e.Release? && p in s.latest && s.latest[p] == e.h && s.handles[e.h].invocation == s.locks[p].invocation)
     || (e.Acquire? && s.locks[p].expires <= e.now))
  }

  lemma StepKeepsHolder(s: System, e: Event, p: Profile)
    requires Invariant(s) && p in s.locks && !Ends(s, e, p)
    ensures p in Step(s, e).locks && Step(s, e).locks[p].invocation == s.locks[p].invocation
  {
    assert LatestKnown(s, p) && RowNamesLatest(s, p);
    assert Apart(s, s.latest[p], e.h);
  }

  /** While a lease is unexpired no other invocation gets the lock: whenever the holder changes
      between two points of a schedule, some event in between was the holder's own release or an
      acquire at a time when the lease then on record had run out. */
  lemma {:induction false} LeaseExcludesOthers(s: System, es: seq<Event>, p: Profile)
    requires Invariant(s) && p in s.locks
    requires forall k | 0 <= k < |es| :: !Ends(Run(s, es[..k]), es[k], p)
    ensures p in Run(s, es).locks && Run(s, es).locks[p].invocation == s.locks[p].invocation
    decreases |es|
  {
    if es != [] {
      var s' := Step(s, es[0]);
      assert !Ends(Run(s, es[..0]), es[0], p);
      StepKeepsHolder(s, es[0], p);
      StepKeepsInvariant(s, es[0]);
      forall k | 0 <= k < |es[1..]| ensures !Ends(Run(s', es[1..][..k]), es[1..][k], p) {
        assert !Ends(Run(s, es[..k + 1]), es[k + 1], p);
        assert es[..k + 1][1..] == es[1..][..k];
      }
      LeaseExcludesOthers(s', es[1..], p);
    }
  }

  // ---------------------------------------------------------------- when a handle keeps its row

  /** The lock row of the handle's profile is the handle's own. */
  predicate HasRow(s: System, h: nat) {
    h in s.handles && s.handles[h].profile in s.locks
    && s.locks[s.handles[h].profile].invocation == s.handles[h].invocation
    && s.locks[s.handles[h].profile].token == s.handles[h].token
  }

  predicate Holding(s: System, h: nat) {
    h in s.handles && s.handles[h].phase == Held
  }

  lemma HasRowIffLatest(s: System, h: nat)
    requires Invariant(s) && Holding(s, h)
    ensures HasRow(s, h) <==> s.handles[h].profile in s.latest && s.latest[s.handles[h].profile] == h
  {
    var p := s.handles[h].profile;
    assert LatestKnown(s, p) && RowNamesLatest(s, p) && LatestHasRow(s, p);
    if p in s.latest { assert Apart(s, s.latest[p], h); }
  }

  /** In every schedule a handle that holds has its row exactly when nobody acquired its profile
      after it. */
  lemma HeldHasRowIffLatest(es: seq<Event>, h: nat)
    requires Holding(Run(INITIAL, es), h)
    ensures var s := Run(INITIAL, es);
      var p := s.handles[h].profile;
      HasRow(s, h) <==> p in s.latest && s.latest[p] == h
  {
    RunKeepsInvariant(INITIAL, es);
    HasRowIffLatest(Run(INITIAL, es), h);
  }

  /** Another handle acquires the profile of `h`: one of the same invocation, or any at a time when
      the lease on record has run out. */
  predicate Takes(s: System, e: Event, h: nat) {
    && Enabled(s, e) && e.Acquire? && e.h != h && h in s.handles && s.handles[e.h].profile == s.handles[h].profile
    && (s.handles[e.h].invocation == s.handles[h].invocation
        || (s.handles[h].profile in s.locks && s.locks[s.handles[h].profile].expires <= e.now))
  }

  lemma StepKeepsRowIff(s: System, e: Event, h: nat)
    requires Invariant(s) && Holding(s, h) && Holding(Step(s, e), h)
    ensures HasRow(Step(s, e), h) <==> HasRow(s, h) && !Takes(s, e, h)
  {
    StepKeepsInvariant(s, e);
    HasRowIffLatest(s, h);
    HasRowIffLatest(Step(s, e), h);
  }

  lemma {:induction false} ClosedForGood(s: System, es: seq<Event>, h: nat)
    requires h in s.handles && s.handles[h].phase == Closed
    ensures !Holding(Run(s, es), h)
    decreases |es|
  {
    if es != [] { ClosedForGood(Step(s, es[0]), es[1..], h); }
  }

  /** Some event of the schedule takes the profile from `h`. */
  ghost predicate TakenIn(s: System, es: seq<Event>, h: nat) {
    exists k :: 0 <= k < |es| && Takes(Run(s, es[..k]), es[k], h)
  }

  lemma TakenFirstOrLater(s: System, es: seq<Event>, h: nat)
    requires es != []
    ensures TakenIn(s, es, h) <==> Takes(s, es[0], h) || TakenIn(Step(s, es[0]), es[1..], h)
  {
    var t := Step(s, es[0]);
    if k :| 0 <= k < |es| && Takes(Run(s, es[..k]), es[k], h) {
      if k > 0 {
        assert es[..k][1..] == es[1..][..k - 1];
        assert Takes(Run(t, es[1..][..k - 1]), es[1..][k - 1], h);
      }
    }
    if Takes(s, es[0], h) { assert Takes(Run(s, es[..0]), es[0], h); }
    if k :| 0 <= k < |es[1..]| && Takes(Run(t, es[1..][..k]), es[1..][k], h) {
      assert es[..k + 1][1..] == es[1..][..k];
      assert Takes(Run(s, es[..k + 1]), es[k + 1], h);
    }
  }

  /** A handle keeps its row until its own release exactly when no other handle takes the profile
      in between. */
  lemma {:induction false} KeepsRowIffNotTaken(s: System, es: seq<Event>, h: nat)
    requires Invariant(s) && Holding(s, h) && Holding(Run(s, es), h)
    ensures HasRow(Run(s, es), h) <==> HasRow(s, h) && !TakenIn(s, es, h)
    decreases |es|
  {
    if es != [] {
      var t := Step(s, es[0]);
      if !Holding(t, h) { ClosedForGood(t, es[1..], h); }
      StepKeepsInvariant(s, es[0]);
      StepKeepsRowIff(s, es[0], h);
      KeepsRowIffNotTaken(t, es[1..], h);
      TakenFirstOrLater(s, es, h);
    }
  }

  /** Over every schedule: an acquire that succeeds gives the handle its row, and while the handle
      holds it has lost the row exactly when another handle of the same invocation acquired the
      profile since, or any other at a time when the lease on record had run out. */
  lemma RowLostExactlyWhenTaken(prefix: seq<Event>, acquire: Event, es: seq<Event>)
    requires var s := Run(INITIAL, prefix);
      acquire.Acquire? && Enabled(s, acquire) && Holding(Step(s, acquire), acquire.h)
      && Holding(Run(Step(s, acquire), es), acquire.h)
    ensures var t := Step(Run(INITIAL, prefix), acquire);
      HasRow(t, acquire.h) && (HasRow(Run(t, es), acquire.h) <==> !TakenIn(t, es, acquire.h))
  {
    var s := Run(INITIAL, prefix);
    RunKeepsInvariant(INITIAL, prefix);
    StepKeepsInvariant(s, acquire);
    KeepsRowIffNotTaken(Step(s, acquire), es, acquire.h);
  }

  // ---------------------------------------------------------------- how long a lease lasts

  /** A granted lease: the handle holds, acquired its profile last, and this is its row. */
  ghost predicate Leased(s: System, h: nat, row: LockRow) {
    && Holding(s, h)
    && row.invocation == s.handles[h].invocation && row.token == s.handles[h].token
    && s.handles[h].profile in s.latest && s.latest[s.handles[h].profile] == h
    && s.handles[h].profile in s.locks && s.locks[s.handles[h].profile] == row
  }

  /** What can end or change the lease of `h`: its own release or renewal, an acquire of its profile by
      another handle of its invocation, or by any other once the time has come. */
  predicate Disturbs(s: System, e: Event, h: nat, until: int) {
    && Enabled(s, e)
    && (if e.h == h then e.Release? || e.Renew?
        else e.Acquire? && h in s.handles && s.handles[e.h].profile == s.handles[h].profile
             && (s.handles[e.h].invocation == s.handles[h].invocation || until <= e.now))
  }

  ghost predicate Undisturbed(s: System, es: seq<Event>, h: nat, until: int) {
    forall k | 0 <= k < |es| :: !Disturbs(Run(s, es[..k]), es[k], h, until)
  }

  lemma StepKeepsLease(s: System, e: Event, h: nat, row: LockRow)
    requires Invariant(s) && Leased(s, h, row) && !Disturbs(s, e, h, row.expires)
    ensures Leased(Step(s, e), h, row)
  {
    assert Apart(s, h, e.h);
  }

  lemma {:induction false} RunKeepsLease(s: System, es: seq<Event>, h: nat, row: LockRow)
    requires Invariant(s) && Leased(s, h, row) && Undisturbed(s, es, h, row.expires)
    ensures Leased(Run(s, es), h, row)
    decreases |es|
  {
    if es != [] {
      var t := Step(s, es[0]);
      assert !Disturbs(Run(s, es[..0]), es[0], h, row.expires);
      StepKeepsLease(s, es[0], h, row);
      StepKeepsInvariant(s, es[0]);
      forall k | 0 <= k < |es[1..]| ensures !Disturbs(Run(t, es[1..][..k]), es[1..][k], h, row.expires) {
        assert !Disturbs(Run(s, es[..k + 1]), es[k + 1], h, row.expires);
        assert es[..k + 1][1..] == es[1..][..k];
      }
      RunKeepsLease(t, es[1..], h, row);
    }
  }

  /** The event gives `h` a lease: an acquire that succeeds, or a renewal while it has its row. */
  predicate Grants(s: System, e: Event, h: nat) {
    e.h == h && Enabled(s, e) && ((e.Acquire? && Holding(Step(s, e), h)) || (e.Renew? && HasRow(s, h)))
  }

  /** When it runs out. */
  function Until(e: Event): int
    requires e.Acquire? || e.Renew?
  {
    if e.Acquire? then e.now + e.lease else e.now + e.extension
  }

  lemma GrantLeases(s: System, e: Event, h: nat)
    requires Invariant(s) && Grants(s, e, h)
    ensures var t := Step(s, e);
      && Leased(t, h, t.locks[t.handles[h].profile])
      && t.locks[t.handles[h].profile].expires == Until(e)
      && t.locks[t.handles[h].profile].acquiredAt == if e.Acquire? then e.now else s.locks[s.handles[h].profile].acquiredAt
  {
    if e.Renew? { HasRowIffLatest(s, h); }
  }

  /** Over every schedule: a lease lasts from the event that grants it for exactly the time asked for.
      As long as its handle neither releases nor renews and no other handle of its invocation acquires,
      another invocation is refused in its name at every earlier time and gets the profile at any later
      one. */
  lemma LeaseLastsAsGranted(prefix: seq<Event>, grant: Event, es: seq<Event>, h: nat, e: Event)
    requires Grants(Run(INITIAL, prefix), grant, h)
    requires Undisturbed(Step(Run(INITIAL, prefix), grant), es, h, Until(grant))
    ensures var s := Run(Step(Run(INITIAL, prefix), grant), es);
      Holding(s, h) && HasRow(s, h) && s.locks[s.handles[h].profile].expires == Until(grant)
    ensures var s := Run(Step(Run(INITIAL, prefix), grant), es);
      e.Acquire? && Enabled(s, e) && s.handles[e.h].profile == s.handles[h].profile
      && s.handles[e.h].invocation != s.handles[h].invocation ==>
        && (Holding(Step(s, e), e.h) <==> Until(grant) <= e.now)
        && (e.now < Until(grant) ==> Refuses(s, e, s.handles[h].invocation))
  {
    var s := Run(INITIAL, prefix);
    var t := Step(s, grant);
    RunKeepsInvariant(INITIAL, prefix);
    GrantLeases(s, grant, h);
    StepKeepsInvariant(s, grant);
    RunKeepsLease(t, es, h, t.locks[t.handles[h].profile]);
  }

  /** The acquire is answered with the holder and changes no row. */
  predicate Refuses(s: System, e: Event, holder: Invocation)
    requires e.Acquire? && Enabled(s, e)
  {
    var k := s.handles[e.h];
    Acquired(s.locks, k.profile, k.invocation, k.token, e.now, e.lease) == Err(LockHeld(holder)) && Step(s, e).locks == s.locks
  }

  function NestedPromotion(): seq<Event> {
    [Issue(0, "p", "run"), Acquire(0, 0, 9), Issue(1, "p", "run"), Acquire(1, 1, 9),
     Release(1), Issue(2, "p", "other"), Acquire(2, 3, 9)]
  }

  /** Holding is not exclusive until one's own release: the nested release of the same
      invocation already frees the profile, and another invocation gets in while the outer
      handle is still held. */
  lemma NestedReleaseFreesOuter()
    ensures var s := Run(INITIAL, NestedPromotion());
      0 in s.handles && s.handles[0].phase == Held && 2 in s.handles && s.handles[2].phase == Held
      && s.handles[0].profile == s.handles[2].profile == "p"
      && "p" in s.locks && s.locks["p"].invocation == s.handles[2].invocation != s.handles[0].invocation
  {
  }
}
