/** The blast-radius check of a correction
    (src/model_forge/application/correction_execution.py, `_changed_paths` and
    `verify_correction_blast_radius`). */
module BlastRadius {
  import opened Wrappers

  /** A parsed document; scalars are compared by their text. */
  datatype Tree = Leaf(text: string) | List(items: seq<Tree>) | Dict(entries: map<string, Tree>)

  /** What `get` returns for an output that is not there, and what `null` parses to. */
  const NULL := Leaf("null")

  // ---------------------------------------------------------------- locations and pointers

  datatype Step = Key(key: string) | Index(index: nat)

  type Location = seq<Step>

  function Decimal(n: nat): (s: string)
    ensures s != "" && forall i | 0 <= i < |s| :: '0' <= s[i] <= '9'
  {
    if n < 10 then ['0' + n as char] else Decimal(n / 10) + ['0' + (n % 10) as char]
  }

  function TextOf(s: Step): string {
    match s
    case Key(k) => k
    case Index(i) => Decimal(i)
  }

  function ChildPath(ptr: string, s: Step): string {
    ptr + ("/" + TextOf(s))
  }

  /** Steps joined by `/`, without any escaping. */
  function Pointer(loc: Location): string {
    if loc == [] then "" else ("/" + TextOf(loc[0])) + Pointer(loc[1..])
  }

  function Child(t: Tree, s: Step): Option<Tree> {
    match (t, s)
    case (Dict(m), Key(k)) => if k in m then Some(m[k]) else None
    case (List(items), Index(i)) => if i < |items| then Some(items[i]) else None
    case _ => None
  }

  function At(t: Tree, loc: Location): Option<Tree> {
    if loc == [] then Some(t)
    else
      var c := Child(t, loc[0]);
      if c.Some? then At(c.value, loc[1..]) else None
  }

  /** The same scalar, or a container of the same kind: whatever differs lies further down. */
  predicate SameNode(a: Option<Tree>, b: Option<Tree>) {
    match (a, b)
    case (None, None) => true
    case (Some(x), Some(y)) => x == y || (x.Dict? && y.Dict?) || (x.List? && y.List?)
    case _ => false
  }

  // ---------------------------------------------------------------- changed paths

  function KeySteps(keys: set<string>): set<Step> {
    set k | k in keys :: Key(k)
  }

  function IndexSteps(n: nat): set<Step> {
    set i | 0 <= i < n :: Index(i)
  }

  function Larger(m: nat, n: nat): nat {
    if m < n then n else m
  }

  /** The steps from two containers of one kind to a child of either. */
  function Steps(a: Tree, b: Tree): set<Step>
    requires SameKind(a, b)
  {
    if a.Dict? then KeySteps(a.entries.Keys + b.entries.Keys) else IndexSteps(Larger(|a.items|, |b.items|))
  }

  predicate SameKind(a: Tree, b: Tree) {
    (a.Dict? && b.Dict?) || (a.List? && b.List?)
  }

  /** The pointers at which two trees differ: the deepest common containers are looked into, a
      child that only one of them has is reported as a whole. */
  ghost function Changed(before: Tree, after: Tree, ptr: string): set<string>
    decreases before, 2
  {
    if before == after then {}
    else if SameKind(before, after) then ChangedIn(before, after, ptr, Steps(before, after))
    else {ptr}
  }

  ghost function ChangedIn(before: Tree, after: Tree, ptr: string, steps: set<Step>): set<string>
    decreases before, 1
  {
    set s, p | s in steps && p in ChangedChild(before, after, ptr, s) :: p
  }

  ghost function ChangedChild(before: Tree, after: Tree, ptr: string, s: Step): set<string>
    decreases before, 0
  {
    var a, b := Child(before, s), Child(after, s);
    if a.Some? && b.Some? then Changed(a.value, b.value, ChildPath(ptr, s)) else {ChildPath(ptr, s)}
  }

  /** `_changed_paths`. */
  method ChangedPaths(before: Tree, after: Tree, ptr: string) returns (paths: set<string>)
    ensures paths == Changed(before, after, ptr)
    decreases before, 2
  {
    if before == after { return {}; }
    if !SameKind(before, after) { return {ptr}; }
    paths := InnerPaths(before, after, ptr);
  }

  method InnerPaths(before: Tree, after: Tree, ptr: string) returns (paths: set<string>)
    requires SameKind(before, after)
    ensures paths == ChangedIn(before, after, ptr, Steps(before, after))
    decreases before, 1
  {
    paths := {};
    var steps := Steps(before, after);
    ghost var done: set<Step> := {};
    while steps != {}
      invariant done !! steps && done + steps == Steps(before, after)
      invariant paths == ChangedIn(before, after, ptr, done)
      decreases |steps|
    {
      var s :| s in steps;
      OneStepMore(before, after, ptr, done, s);
      var more := ChildPaths(before, after, ptr, s);
      paths := paths + more;
      steps := steps - {s};
      done := done + {s};
    }
    assert done == Steps(before, after);
  }

  method ChildPaths(before: Tree, after: Tree, ptr: string, s: Step) returns (paths: set<string>)
    ensures paths == ChangedChild(before, after, ptr, s)
    decreases before, 0
  {
    var a, b := Child(before, s), Child(after, s);
    if a.None? || b.None? { return {ChildPath(ptr, s)}; }
    paths := ChangedPaths(a.value, b.value, ChildPath(ptr, s));
  }

  lemma OneStepMore(before: Tree, after: Tree, ptr: string, steps: set<Step>, s: Step)
    ensures ChangedIn(before, after, ptr, steps + {s}) == ChangedIn(before, after, ptr, steps) + ChangedChild(before, after, ptr, s)
  {
  }

  lemma ChildSteps(a: Tree, b: Tree, s: Step)
    requires SameKind(a, b)
    ensures s in Steps(a, b) <==> Child(a, s).Some? || Child(b, s).Some?
  {
  }

  lemma SameChildren(a: Tree, b: Tree)
    requires SameKind(a, b) && forall s | s in Steps(a, b) :: Child(a, s).Some? && Child(a, s) == Child(b, s)
    ensures a == b
  {
    if a.Dict? {
      forall k ensures (k in a.entries <==> k in b.entries) && (k in a.entries ==> a.entries[k] == b.entries[k]) {
        ChildSteps(a, b, Key(k));
        assert Child(a, Key(k)).Some? <==> k in a.entries;
        assert Child(b, Key(k)).Some? <==> k in b.entries;
      }
      assert a.entries == b.entries;
    } else {
      forall i | 0 <= i < Larger(|a.items|, |b.items|) ensures i < |a.items| && i < |b.items| && a.items[i] == b.items[i] {
        ChildSteps(a, b, Index(i));
      }
      var n := Larger(|a.items|, |b.items|);
      if n > 0 { ChildSteps(a, b, Index(n - 1)); }
      assert a.items == b.items;
    }
  }

  /** No path is reported exactly when the trees are the same. */
  lemma {:induction false} NothingChangedIffEqual(before: Tree, after: Tree, ptr: string)
    ensures Changed(before, after, ptr) == {} <==> before == after
    decreases before
  {
    if before != after && SameKind(before, after) {
      if forall s | s in Steps(before, after) :: Child(before, s).Some? && Child(before, s) == Child(after, s) {
        SameChildren(before, after);
        assert false;
      }
      var s :| s in Steps(before, after) && !(Child(before, s).Some? && Child(before, s) == Child(after, s));
      var a, b := Child(before, s), Child(after, s);
      if a.Some? && b.Some? { NothingChangedIffEqual(a.value, b.value, ChildPath(ptr, s)); }
      assert ChangedChild(before, after, ptr, s) != {};
      var p :| p in ChangedChild(before, after, ptr, s);
      assert p in Changed(before, after, ptr);
    }
  }

  lemma Associative(a: string, b: string, c: string)
    ensures (a + b) + c == a + (b + c)
  {
  }

  lemma PointerFirst(ptr: string, s: Step, rest: Location)
    ensures ChildPath(ptr, s) + Pointer(rest) == ptr + Pointer([s] + rest)
  {
    assert ([s] + rest)[1..] == rest;
    Associative(ptr, "/" + TextOf(s), Pointer(rest));
  }

  lemma {:induction false} PointerJoined(a: Location, b: Location)
    ensures Pointer(a + b) == Pointer(a) + Pointer(b)
    decreases |a|
  {
    if a == [] {
      assert a + b == b;
    } else {
      assert (a + b)[1..] == a[1..] + b;
      PointerJoined(a[1..], b);
      Associative("/" + TextOf(a[0]), Pointer(a[1..]), Pointer(b));
    }
  }

  lemma ReportedBelow(before: Tree, after: Tree, ptr: string, s: Step, path: string)
    requires before != after && SameKind(before, after) && s in Steps(before, after)
    requires path in ChangedChild(before, after, ptr, s)
    ensures path in Changed(before, after, ptr)
  {
  }

  /** A path reported for a child, below the pointer of a longer location. */
  lemma CoveredBelow(ptr: string, s: Step, rest: Location, k: nat)
    requires k <= |rest|
    ensures ChildPath(ptr, s) + Pointer(rest[..k]) == ptr + Pointer(([s] + rest)[..k + 1])
  {
    PointerFirst(ptr, s, rest[..k]);
    assert [s] + rest[..k] == ([s] + rest)[..k + 1];
  }

  /** Every difference is covered: at the place where two trees differ, or above it, a path is
      reported. */
  lemma {:induction false} DifferencesAreCovered(before: Tree, after: Tree, ptr: string, loc: Location)
    requires !SameNode(At(before, loc), At(after, loc))
    ensures exists k :: 0 <= k <= |loc| && ptr + Pointer(loc[..k]) in Changed(before, after, ptr)
    decreases before
  {
    if !SameKind(before, after) {
      assert ptr + Pointer(loc[..0]) == ptr;
    } else {
      var s, rest := loc[0], loc[1..];
      assert loc == [s] + rest;
      var a, b := Child(before, s), Child(after, s);
      ChildSteps(before, after, s);
      var k: nat := 0;
      if a.Some? && b.Some? {
        DifferencesAreCovered(a.value, b.value, ChildPath(ptr, s), rest);
        k :| 0 <= k <= |rest| && ChildPath(ptr, s) + Pointer(rest[..k]) in Changed(a.value, b.value, ChildPath(ptr, s));
      } else {
        assert ChildPath(ptr, s) + Pointer(rest[..0]) == ChildPath(ptr, s);
      }
      CoveredBelow(ptr, s, rest, k);
      ReportedBelow(before, after, ptr, s, ptr + Pointer(loc[..k + 1]));
    }
  }

  /** And nothing else is reported: every path is the pointer of a place where the trees differ. */
  lemma {:induction false} ReportedPathsDiffer(before: Tree, after: Tree, ptr: string, path: string)
    requires path in Changed(before, after, ptr)
    ensures exists loc :: path == ptr + Pointer(loc) && At(before, loc) != At(after, loc)
    decreases before
  {
    if !SameKind(before, after) {
      assert path == ptr + Pointer([]) && At(before, []) != At(after, []);
    } else {
      var s :| s in Steps(before, after) && path in ChangedChild(before, after, ptr, s);
      var a, b := Child(before, s), Child(after, s);
      ChildSteps(before, after, s);
      var rest: Location := [];
      if a.Some? && b.Some? {
        ReportedPathsDiffer(a.value, b.value, ChildPath(ptr, s), path);
        rest :| path == ChildPath(ptr, s) + Pointer(rest) && At(a.value, rest) != At(b.value, rest);
      }
      DifferBelow(before, after, ptr, s, rest, path);
    }
  }

  lemma DifferBelow(before: Tree, after: Tree, ptr: string, s: Step, rest: Location, path: string)
    requires path == ChildPath(ptr, s) + Pointer(rest)
    requires var a, b := Child(before, s), Child(after, s);
      (a.Some? && b.Some? && At(a.value, rest) != At(b.value, rest)) || (a.Some? != b.Some? && rest == [])
    ensures path == ptr + Pointer([s] + rest) && At(before, [s] + rest) != At(after, [s] + rest)
  {
    PointerFirst(ptr, s, rest);
    DownOne(before, s, rest);
    DownOne(after, s, rest);
  }

  lemma DownOne(t: Tree, s: Step, rest: Location)
    ensures At(t, [s] + rest) == if Child(t, s).Some? then At(Child(t, s).value, rest) else None
  {
    assert ([s] + rest)[1..] == rest;
  }

  // ---------------------------------------------------------------- the verdict

  datatype Finding = OutOfScope(output: string) | OutsidePointers(output: string, path: string)

  /** A correction: the documents before and after it, and what it may touch. */
  datatype Correction = Correction(sources: map<string, Tree>, corrected: map<string, Tree>, packaging: bool,
                                   permitted: set<string>, scope: set<string>)

  /** An absent document reads like a `null` one. */
  function Get(documents: map<string, Tree>, output: string): Tree {
    if output in documents then documents[output] else NULL
  }

  /** At a pointer or below it. */
  predicate AtOrBelow(path: string, q: string) {
    path == q || q + "/" <= path
  }

  /** At a permitted pointer, or below it. */
  predicate Permitted(path: string, permitted: set<string>) {
    exists q :: q in permitted && AtOrBelow(path, q)
  }

  /** What a finding claims. */
  ghost predicate IsViolation(c: Correction, f: Finding) {
    var a, b := Get(c.sources, f.output), Get(c.corrected, f.output);
    && f.output in c.sources.Keys + c.corrected.Keys && a != b
    && match f
       case OutOfScope(o) => o !in c.scope
       case OutsidePointers(o, path) =>
         o in c.scope && c.packaging && a != NULL && path in Changed(a, b, "") && !Permitted(path, c.permitted)
  }

  /** The findings about one output. */
  method CheckOutput(c: Correction, output: string) returns (found: seq<Finding>)
    requires output in c.sources.Keys + c.corrected.Keys
    ensures forall f :: f in found <==> f.output == output && IsViolation(c, f)
  {
    found := [];
    var source, corrected := Get(c.sources, output), Get(c.corrected, output);
    if source == corrected { return; }
    if output !in c.scope { return [OutOfScope(output)]; }
    if !c.packaging || source == NULL { return; }
    var paths := ChangedPaths(source, corrected, "");
    ghost var done: set<string> := {};
    while paths != {}
      invariant done !! paths && done + paths == Changed(source, corrected, "")
      invariant forall f :: f in found <==> f.OutsidePointers? && f.output == output && f.path in done && !Permitted(f.path, c.permitted)
      decreases |paths|
    {
      var path :| path in paths;
      paths := paths - {path};
      done := done + {path};
      if !Permitted(path, c.permitted) {
        found := found + [OutsidePointers(output, path)];
      }
    }
    assert done == Changed(source, corrected, "");
  }

  /** `verify_correction_blast_radius`: exactly the violations are reported. */
  method VerifyCorrectionBlastRadius(c: Correction) returns (violations: seq<Finding>)
    ensures forall f :: f in violations <==> IsViolation(c, f)
    ensures violations == [] <==> forall f :: !IsViolation(c, f)
  {
    violations := [];
    var outputs := c.sources.Keys + c.corrected.Keys;
    ghost var done: set<string> := {};
    while outputs != {}
      invariant done !! outputs && done + outputs == c.sources.Keys + c.corrected.Keys
      invariant forall f :: f in violations <==> f.output in done && IsViolation(c, f)
      decreases |outputs|
    {
      var o :| o in outputs;
      outputs := outputs - {o};
      done := done + {o};
      var found := CheckOutput(c, o);
      violations := violations + found;
    }
    if violations != [] { assert violations[0] in violations; }
  }

  // ---------------------------------------------------------------- what a clean verdict means

  ghost predicate Clean(c: Correction) {
    forall f :: !IsViolation(c, f)
  }

  lemma StartsWithSlash(loc: Location)
    ensures Pointer(loc) == "" || Pointer(loc)[0] == '/'
  {
  }

  lemma PrefixPointer(loc: Location, k: nat)
    requires k <= |loc|
    ensures AtOrBelow(Pointer(loc), Pointer(loc[..k]))
  {
    var upper, lower := Pointer(loc[..k]), Pointer(loc[k..]);
    assert loc[..k] + loc[k..] == loc;
    PointerJoined(loc[..k], loc[k..]);
    StartsWithSlash(loc[k..]);
    Extended(upper, lower);
  }

  lemma Extended(upper: string, lower: string)
    requires lower == "" || lower[0] == '/'
    ensures AtOrBelow(upper + lower, upper)
  {
  }

  /** A clean verdict is a frame.  An output outside the scope is what it was.  In a packaging
      correction of a document that was there, every location whose pointer is not at or below a
      permitted one holds the same node in both documents. */
  lemma CleanIsAFrame(c: Correction, output: string, loc: Location)
    requires Clean(c)
    ensures output !in c.scope ==> Get(c.sources, output) == Get(c.corrected, output)
    ensures output !in c.scope && output in c.sources ==>
      c.sources[output] == if output in c.corrected then c.corrected[output] else NULL
    ensures output !in c.scope && output in c.corrected && output !in c.sources ==> c.corrected[output] == NULL
    ensures c.packaging && Get(c.sources, output) != NULL && !Permitted(Pointer(loc), c.permitted) ==>
      SameNode(At(Get(c.sources, output), loc), At(Get(c.corrected, output), loc))
  {
    var a, b := Get(c.sources, output), Get(c.corrected, output);
    assert !IsViolation(c, OutOfScope(output));
    if c.packaging && a != NULL && !Permitted(Pointer(loc), c.permitted) && !SameNode(At(a, loc), At(b, loc)) {
      DifferencesAreCovered(a, b, "", loc);
      var k :| 0 <= k <= |loc| && "" + Pointer(loc[..k]) in Changed(a, b, "");
      var path := Pointer(loc[..k]);
      assert "" + path == path;
      assert !IsViolation(c, OutsidePointers(output, path));
      var q :| q in c.permitted && AtOrBelow(path, q);
      PrefixPointer(loc, k);
      PermittedBelow(q, path, Pointer(loc));
    }
  }

  lemma PermittedBelow(q: string, path: string, deeper: string)
    requires AtOrBelow(path, q) && AtOrBelow(deeper, path)
    ensures AtOrBelow(deeper, q)
  {
  }

  /** Where, besides, nothing permitted lies further down, the whole subtree is the same. */
  lemma CleanKeepsSubtrees(c: Correction, output: string, loc: Location)
    requires Clean(c) && c.packaging && Get(c.sources, output) != NULL
    requires forall more :: !Permitted(Pointer(loc + more), c.permitted)
    ensures At(Get(c.sources, output), loc) == At(Get(c.corrected, output), loc)
  {
    var a, b := Get(c.sources, output), Get(c.corrected, output);
    assert loc + [] == loc;
    CleanIsAFrame(c, output, loc);
    if At(a, loc) != At(b, loc) {
      var x, y := At(a, loc).value, At(b, loc).value;
      NothingChangedIffEqual(x, y, "");
      var path :| path in Changed(x, y, "");
      FirstDifference(x, y, "", path);
      var more :| !SameNode(At(x, more), At(y, more));
      AtTwice(a, loc, more);
      AtTwice(b, loc, more);
      CleanIsAFrame(c, output, loc + more);
    }
  }

  lemma {:induction false} AtTwice(t: Tree, loc: Location, more: Location)
    ensures At(t, loc + more) == if At(t, loc).Some? then At(At(t, loc).value, more) else None
    decreases |loc|
  {
    if loc == [] {
      assert loc + more == more;
    } else {
      assert (loc + more)[1..] == loc[1..] + more;
      if Child(t, loc[0]).Some? { AtTwice(Child(t, loc[0]).value, loc[1..], more); }
    }
  }

  /** Where a path is reported, a node differs. */
  lemma {:induction false} FirstDifference(before: Tree, after: Tree, ptr: string, path: string)
    requires path in Changed(before, after, ptr)
    ensures exists loc :: !SameNode(At(before, loc), At(after, loc))
    decreases before
  {
    if !SameKind(before, after) {
      assert !SameNode(At(before, []), At(after, []));
    } else {
      var s :| s in Steps(before, after) && path in ChangedChild(before, after, ptr, s);
      var a, b := Child(before, s), Child(after, s);
      ChildSteps(before, after, s);
      var rest: Location := [];
      if a.Some? && b.Some? {
        FirstDifference(a.value, b.value, ChildPath(ptr, s), path);
        rest :| !SameNode(At(a.value, rest), At(b.value, rest));
      }
      DownOne(before, s, rest);
      DownOne(after, s, rest);
      assert !SameNode(At(before, [s] + rest), At(after, [s] + rest));
    }
  }

  // ---------------------------------------------------------------- pointers and locations

  /** The texts of the steps. */
  function Texts(loc: Location): (r: seq<string>)
    ensures |r| == |loc| && forall i | 0 <= i < |r| :: r[i] == TextOf(loc[i])
  {
    seq(|loc|, i requires 0 <= i < |loc| => TextOf(loc[i]))
  }

  /** A text cut at its slashes. */
  function Split(t: string): (r: seq<string>)
    ensures r != [] && SlashFree(r) && |r| == Slashes(t) + 1
  {
    if t == "" then [""]
    else
      var rest := Split(t[1..]);
      if t[0] == '/' then [""] + rest else [[t[0]] + rest[0]] + rest[1..]
  }

  function Slashes(t: string): nat {
    if t == "" then 0 else (if t[0] == '/' then 1 else 0) + Slashes(t[1..])
  }

  predicate SlashFree(parts: seq<string>) {
    forall i | 0 <= i < |parts| :: '/' !in parts[i]
  }

  /** Every step's text cut at its slashes: all that a pointer says of a location. */
  function Segments(loc: Location): (r: seq<string>)
    ensures SlashFree(r)
  {
    if loc == [] then [] else Split(TextOf(loc[0])) + Segments(loc[1..])
  }

  function Slashed(parts: seq<string>): string {
    if parts == [] then "" else ("/" + parts[0]) + Slashed(parts[1..])
  }

  lemma {:induction false} SlashedJoined(a: seq<string>, b: seq<string>)
    ensures Slashed(a + b) == Slashed(a) + Slashed(b)
    decreases |a|
  {
    if a == [] {
      assert a + b == b;
    } else {
      assert (a + b)[1..] == a[1..] + b;
      SlashedJoined(a[1..], b);
      Associative("/" + a[0], Slashed(a[1..]), Slashed(b));
    }
  }

  lemma {:induction false} SplitIsText(t: string)
    ensures Slashed(Split(t)) == "/" + t
  {
    if t != "" {
      var rest := Split(t[1..]);
      SplitIsText(t[1..]);
      assert t == [t[0]] + t[1..];
      if t[0] == '/' {
        assert Split(t)[1..] == rest;
        assert Slashed(Split(t)) == ("/" + "") + ("/" + t[1..]);
      } else {
        assert Split(t)[1..] == rest[1..];
        assert "/" + ([t[0]] + rest[0]) == ("/" + [t[0]]) + rest[0];
        Associative("/" + [t[0]], rest[0], Slashed(rest[1..]));
        assert rest[0] + Slashed(rest[1..]) == t[1..] by {
          Associative("/", rest[0], Slashed(rest[1..]));
          assert ("/" + (rest[0] + Slashed(rest[1..])))[1..] == ("/" + t[1..])[1..];
        }
        assert ("/" + [t[0]]) + t[1..] == "/" + t;
      }
    }
  }

  lemma {:induction false} PointerIsSegments(loc: Location)
    ensures Pointer(loc) == Slashed(Segments(loc))
    decreases |loc|
  {
    if loc != [] {
      PointerIsSegments(loc[1..]);
      SplitIsText(TextOf(loc[0]));
      SlashedJoined(Split(TextOf(loc[0])), Segments(loc[1..]));
    }
  }

  lemma SlashedHead(parts: seq<string>)
    ensures Slashed(parts) == "" <==> parts == []
    ensures parts != [] ==> Slashed(parts)[0] == '/'
  {
  }

  lemma {:induction false} SlashedOrder(a: seq<string>, b: seq<string>)
    requires SlashFree(a) && SlashFree(b)
    ensures AtOrBelow(Slashed(b), Slashed(a)) <==> a <= b
    decreases |a|
  {
    SlashedHead(a);
    SlashedHead(b);
    if a == [] {
      Extended("", Slashed(b));
      assert "" + Slashed(b) == Slashed(b);
    } else if b != [] {
      SlashedHead(a[1..]);
      SlashedHead(b[1..]);
      SlashedOrder(a[1..], b[1..]);
      SegmentsMatch(a[0], Slashed(a[1..]), b[0], Slashed(b[1..]));
      PrefixSplit(a, b);
    }
  }

  lemma PrefixSplit(a: seq<string>, b: seq<string>)
    requires a != [] && b != []
    ensures a <= b <==> a[0] == b[0] && a[1..] <= b[1..]
  {
    if a <= b { assert b[1..][..|a| - 1] == b[..|a|][1..] == a[1..]; }
    if a[0] == b[0] && a[1..] <= b[1..] {
      assert a == [a[0]] + a[1..] && b == [b[0]] + b[1..];
      assert b[..|a|] == [b[0]] + b[1..][..|a| - 1];
    }
  }

  /** Being at or below a pointer is a matter of segments, whatever the keys are. */
  lemma PointersCompareSegments(q: Location, loc: Location)
    ensures AtOrBelow(Pointer(loc), Pointer(q)) <==> Segments(q) <= Segments(loc)
  {
    PointerIsSegments(q);
    PointerIsSegments(loc);
    SlashedOrder(Segments(q), Segments(loc));
  }

  /** Each step of `q` has as many slashes in its text as the same step of `loc`. */
  predicate SameSlashes(q: Location, loc: Location) {
    |q| <= |loc| && forall i | 0 <= i < |q| :: Slashes(TextOf(q[i])) == Slashes(TextOf(loc[i]))
  }

  lemma SplitSame(s: string, t: string)
    requires Split(s) == Split(t)
    ensures s == t
  {
    SplitIsText(s);
    SplitIsText(t);
    assert ("/" + s)[1..] == s && ("/" + t)[1..] == t;
  }

  lemma JoinedPrefix(a: seq<string>, x: seq<string>, b: seq<string>, y: seq<string>)
    requires |a| == |b|
    ensures a + x <= b + y <==> a == b && x <= y
  {
    var n := |a|;
    assert (a + x)[..n] == a && (b + y)[..n] == b && (a + x)[n..] == x && (b + y)[n..] == y;
    if a + x <= b + y {
      var m := |a + x|;
      assert (b + y)[..m][..n] == b && (b + y)[..m][n..] == y[..m - n];
    }
    if a == b && x <= y { assert (b + y)[..|a + x|] == b + y[..|x|]; }
  }

  lemma SegmentsStep(q: Location, loc: Location)
    requires q != [] && loc != [] && Slashes(TextOf(q[0])) == Slashes(TextOf(loc[0]))
    ensures Segments(q) <= Segments(loc) <==> TextOf(q[0]) == TextOf(loc[0]) && Segments(q[1..]) <= Segments(loc[1..])
  {
    JoinedPrefix(Split(TextOf(q[0])), Segments(q[1..]), Split(TextOf(loc[0])), Segments(loc[1..]));
    if Split(TextOf(q[0])) == Split(TextOf(loc[0])) { SplitSame(TextOf(q[0]), TextOf(loc[0])); }
  }

  lemma TextsStep(q: Location, loc: Location)
    requires q != [] && loc != []
    ensures Texts(q) <= Texts(loc) <==> TextOf(q[0]) == TextOf(loc[0]) && Texts(q[1..]) <= Texts(loc[1..])
    ensures SameSlashes(q, loc) <==> Slashes(TextOf(q[0])) == Slashes(TextOf(loc[0])) && SameSlashes(q[1..], loc[1..])
  {
    assert Texts(q)[1..] == Texts(q[1..]) && Texts(loc)[1..] == Texts(loc[1..]);
    PrefixSplit(Texts(q), Texts(loc));
    if Slashes(TextOf(q[0])) == Slashes(TextOf(loc[0])) && SameSlashes(q[1..], loc[1..]) {
      forall i | 0 <= i < |q| ensures Slashes(TextOf(q[i])) == Slashes(TextOf(loc[i])) {
        if i > 0 { assert q[i] == q[1..][i - 1] && loc[i] == loc[1..][i - 1]; }
      }
    }
  }

  /** A location is at or below another exactly when its pointer is and the slashes in the keys on
      the way agree step by step; so a pointer reaches further than its location exactly at the
      pairs whose slashes disagree. */
  lemma {:induction false} LocationsFromPointers(q: Location, loc: Location)
    ensures Texts(q) <= Texts(loc) <==> AtOrBelow(Pointer(loc), Pointer(q)) && SameSlashes(q, loc)
    decreases |q|
  {
    PointersCompareSegments(q, loc);
    if q != [] && loc != [] {
      TextsStep(q, loc);
      LocationsFromPointers(q[1..], loc[1..]);
      PointersCompareSegments(q[1..], loc[1..]);
      if Slashes(TextOf(q[0])) == Slashes(TextOf(loc[0])) { SegmentsStep(q, loc); }
    }
  }

  function Pointers(permitted: set<Location>): set<string> {
    set q | q in permitted :: Pointer(q)
  }

  /** A permitted location reaches `loc` through its pointer. */
  predicate Reaches(q: Location, loc: Location) {
    AtOrBelow(Pointer(loc), Pointer(q))
  }

  lemma PermittedByPointer(permitted: set<Location>, loc: Location)
    ensures Permitted(Pointer(loc), Pointers(permitted)) <==> exists q :: q in permitted && Reaches(q, loc)
  {
    if q :| q in permitted && Reaches(q, loc) { assert Pointer(q) in Pointers(permitted); }
  }

  /** For a whole set of permitted locations: the checker permits `loc` although it is at or below
      none of them exactly when some pointer reaches it and the slashes disagree for all that do. */
  lemma PermissionWidensExactlyBySlashes(permitted: set<Location>, loc: Location)
    ensures Permitted(Pointer(loc), Pointers(permitted)) && !(exists q :: q in permitted && Texts(q) <= Texts(loc))
       <==> (exists q :: q in permitted && Reaches(q, loc)) && !(exists q :: q in permitted && Reaches(q, loc) && SameSlashes(q, loc))
  {
    PermittedByPointer(permitted, loc);
    forall q ensures Texts(q) <= Texts(loc) <==> Reaches(q, loc) && SameSlashes(q, loc) { LocationsFromPointers(q, loc); }
  }

  lemma {:induction false} DecimalInjective(m: nat, n: nat)
    requires Decimal(m) == Decimal(n)
    ensures m == n
  {
    var a, b := Decimal(m), Decimal(n);
    assert a[|a| - 1] == b[|b| - 1];
    if m >= 10 && n >= 10 {
      assert a[..|a| - 1] == Decimal(m / 10) && b[..|b| - 1] == Decimal(n / 10);
      DecimalInjective(m / 10, n / 10);
    }
  }

  /** Texts do not tell the key `0` from the index 0, but inside one document they name one place. */
  lemma {:induction false} TextsNameOnePlace(t: Tree, q: Location, loc: Location)
    requires At(t, q).Some? && At(t, loc).Some?
    ensures Texts(q) <= Texts(loc) <==> q <= loc
    decreases |q|
  {
    if q != [] && loc != [] {
      TextsStep(q, loc);
      LocationSplit(q, loc);
      if TextOf(q[0]) == TextOf(loc[0]) {
        SameTextSameStep(t, q[0], loc[0]);
        TextsNameOnePlace(Child(t, q[0]).value, q[1..], loc[1..]);
      }
    }
  }

  lemma LocationSplit(q: Location, loc: Location)
    requires q != [] && loc != []
    ensures q <= loc <==> q[0] == loc[0] && q[1..] <= loc[1..]
  {
    if q <= loc { assert loc[1..][..|q| - 1] == loc[..|q|][1..] == q[1..]; }
    if q[0] == loc[0] && q[1..] <= loc[1..] {
      assert q == [q[0]] + q[1..] && loc[..|q|] == [loc[0]] + loc[1..][..|q| - 1];
    }
  }

  lemma SameTextSameStep(t: Tree, a: Step, b: Step)
    requires Child(t, a).Some? && Child(t, b).Some? && TextOf(a) == TextOf(b)
    ensures a == b
  {
    if t.List? { DecimalInjective(a.index, b.index); }
  }

  /** The text before the first slash. */
  function Segment(s: string): string {
    if s == "" || s[0] == '/' then "" else [s[0]] + Segment(s[1..])
  }

  lemma {:induction false} SegmentOf(a: string, r: string)
    requires '/' !in a && (r == "" || r[0] == '/')
    ensures Segment(a + r) == a
  {
    if a == "" {
      assert a + r == r;
    } else {
      assert (a + r)[1..] == a[1..] + r;
      SegmentOf(a[1..], r);
    }
  }

  /** Two segments followed by remainders that are empty or start with a slash. */
  lemma SegmentsMatch(a: string, ra: string, b: string, rb: string)
    requires '/' !in a && '/' !in b
    requires ra == "" || ra[0] == '/'
    requires rb == "" || rb[0] == '/'
    ensures AtOrBelow("/" + b + rb, "/" + a + ra) <==> a == b && AtOrBelow(rb, ra)
  {
    var x, y := a + ra, b + rb;
    assert "/" + b + rb == "/" + y && "/" + a + ra == "/" + x;
    DropCommon("/", x, y);
    if AtOrBelow(y, x) { SameSegment(a, ra, b, rb); }
    if a == b { DropCommon(a, ra, rb); }
  }

  lemma DropCommon(p: string, x: string, y: string)
    ensures AtOrBelow(p + y, p + x) <==> AtOrBelow(y, x)
  {
    assert (p + y)[|p|..] == y && (p + x)[|p|..] == x;
    assert (p + x) + "/" == p + (x + "/");
    if p + (x + "/") <= p + y {
      assert (p + y)[..|p| + |x| + 1] == p + (x + "/");
      assert y[..|x| + 1] == (p + y)[..|p| + |x| + 1][|p|..];
      assert (p + (x + "/"))[|p|..] == x + "/";
    }
    if x + "/" <= y { assert y == (x + "/") + y[|x| + 1..]; assert p + y == (p + (x + "/")) + y[|x| + 1..]; }
  }

  lemma SameSegment(a: string, ra: string, b: string, rb: string)
    requires '/' !in a && '/' !in b
    requires ra == "" || ra[0] == '/'
    requires rb == "" || rb[0] == '/'
    requires AtOrBelow(b + rb, a + ra)
    ensures a == b
  {
    var y := b + rb;
    SegmentOf(b, rb);
    if y == a + ra {
      SegmentOf(a, ra);
    } else {
      var rest := ra + "/" + y[|a + ra| + 1..];
      assert y == (a + ra + "/") + y[|a + ra| + 1..];
      assert y == a + rest;
      SegmentOf(a, rest);
    }
  }

  /** With a slash in a key the frame is about pointers, not locations: this packaging correction
      may only change `a`, changes the value of the key `a/b`, and is found clean. */
  lemma SlashInKeyWidensPermission()
    ensures var before, after := Dict(map["a/b" := Leaf("1")]), Dict(map["a/b" := Leaf("2")]);
      var c := Correction(map["o" := before], map["o" := after], true, {Pointer([Key("a")])}, {"o"});
      Clean(c) && At(before, [Key("a/b")]) != At(after, [Key("a/b")]) && !(Texts([Key("a")]) <= Texts([Key("a/b")]))
  {
    var before, after := Dict(map["a/b" := Leaf("1")]), Dict(map["a/b" := Leaf("2")]);
    var c := Correction(map["o" := before], map["o" := after], true, {Pointer([Key("a")])}, {"o"});
    forall f ensures !IsViolation(c, f) {
      if f.OutsidePointers? && f.output == "o" && f.path in Changed(before, after, "") { OnlyTheKey(f.path); }
    }
    assert Child(before, Key("a/b")) == Some(Leaf("1")) && Child(after, Key("a/b")) == Some(Leaf("2"));
    DownOne(before, Key("a/b"), []);
    DownOne(after, Key("a/b"), []);
    assert [Key("a/b")] + [] == [Key("a/b")];
    assert Texts([Key("a")])[0] == "a" && Texts([Key("a/b")])[0] == "a/b" && |"a"| == 1 && |"a/b"| == 3;
  }

  lemma OnlyTheKey(path: string)
    requires path in Changed(Dict(map["a/b" := Leaf("1")]), Dict(map["a/b" := Leaf("2")]), "")
    ensures AtOrBelow(path, Pointer([Key("a")]))
  {
    var before, after := Dict(map["a/b" := Leaf("1")]), Dict(map["a/b" := Leaf("2")]);
    var s :| s in Steps(before, after) && path in ChangedChild(before, after, "", s);
    assert s == Key("a/b");
    assert path == ChildPath("", s) == "/a/b";
    assert Pointer([Key("a")]) == "/a" by { assert [Key("a")][1..] == []; }
    assert "/a" + "/" <= "/a/b";
  }
}
