/** Text normalisation of a rendered instruction (src/model_forge/application/default_instructions.py). */
module Instructions {

  const TWO := "\n\n"

  predicate ThreeAt(s: string, i: nat) {
    i + 3 <= |s| && s[i] == '\n' && s[i + 1] == '\n' && s[i + 2] == '\n'
  }

  predicate HasThree(s: string) {
    exists i | 0 <= i < |s| :: ThreeAt(s, i)
  }

  /** Python's `s.replace("\n\n\n", "\n\n")`: leftmost, non-overlapping, one pass. */
  function ReplacePass(s: string): string {
    if |s| < 3 then s
    else if ThreeAt(s, 0) then TWO + ReplacePass(s[3..])
    else [s[0]] + ReplacePass(s[1..])
  }

  /** The text in which every run of newlines is cut to at most two, where `k` newlines
      (at most two) have already been kept immediately before `s`. */
  function Capped(s: string, k: nat): string
    requires k <= 2
  {
    if s == "" then ""
    else if s[0] != '\n' then [s[0]] + Capped(s[1..], 0)
    else if k == 2 then Capped(s[1..], 2)
    else [s[0]] + Capped(s[1..], k + 1)
  }

  function Newlines(n: nat): string {
    if n == 0 then "" else "\n" + Newlines(n - 1)
  }

  // ---------------------------------------------------------------- what Capped means

  /** Newline-free text is untouched. */
  lemma {:induction false} CappedPlain(s: string, k: nat)
    requires k <= 2 && '\n' !in s
    ensures Capped(s, k) == s
  {
    if s != "" { CappedPlain(s[1..], 0); }
  }

  lemma CappedOneMore(s: string, k: nat)
    requires k <= 2 && s != "" && s[0] == '\n'
    ensures Capped(s, k) == if k == 2 then Capped(s[1..], 2) else "\n" + Capped(s[1..], k + 1)
  {
  }

  lemma CappedElsewhere(tail: string, k: nat)
    requires k <= 2 && (tail == "" || tail[0] != '\n')
    ensures Capped(tail, k) == Capped(tail, 0)
  {
  }

  lemma {:induction false} CappedNewlines(n: nat, k: nat, tail: string)
    requires k <= 2 && (tail == "" || tail[0] != '\n')
    ensures Capped(Newlines(n) + tail, k) == Newlines(if n < 2 - k then n else 2 - k) + Capped(tail, 0)
  {
    var s := Newlines(n) + tail;
    if n == 0 {
      assert s == tail;
      CappedElsewhere(tail, k);
    } else {
      assert s[0] == '\n' && s[1..] == Newlines(n - 1) + tail;
      CappedOneMore(s, k);
      CappedNewlines(n - 1, if k == 2 then 2 else k + 1, tail);
    }
  }

  function Next(c: char, k: nat): nat
    requires k <= 2
  {
    if c != '\n' then 0 else if k == 2 then 2 else k + 1
  }

  /** A maximal run of `n` newlines becomes a run of `min(n, 2)`; the text around it is
      normalised on its own, so every other character is kept, in order. */
  lemma {:induction false} CappedRun(head: string, n: nat, tail: string, k: nat)
    requires k <= 2 && (head == "" ==> k == 0) && (head != "" ==> head[|head| - 1] != '\n')
    requires tail == "" || tail[0] != '\n'
    ensures Capped(head + Newlines(n) + tail, k) == Capped(head, k) + (Newlines(if n < 2 then n else 2) + Capped(tail, 0))
  {
    var rest := Newlines(n) + tail;
    CappedAppend(head, rest, k);
    assert head + Newlines(n) + tail == head + rest;
    CappedNewlines(n, 0, tail);
  }

  lemma {:induction false} CappedAppend(head: string, rest: string, k: nat)
    requires k <= 2 && (head == "" ==> k == 0) && (head != "" ==> head[|head| - 1] != '\n')
    ensures Capped(head + rest, k) == Capped(head, k) + Capped(rest, 0)
  {
    if head == "" {
      assert head + rest == rest;
    } else {
      assert (head + rest)[1..] == head[1..] + rest;
      CappedAppend(head[1..], rest, Next(head[0], k));
    }
  }

  // ---------------------------------------------------------------- one pass

  lemma HasThreeTail(s: string)
    requires s != ""
    ensures HasThree(s) <==> ThreeAt(s, 0) || HasThree(s[1..])
  {
    if HasThree(s) && !ThreeAt(s, 0) {
      var i :| 0 <= i < |s| && ThreeAt(s, i);
      assert ThreeAt(s[1..], i - 1);
    }
    if HasThree(s[1..]) {
      var i :| 0 <= i < |s[1..]| && ThreeAt(s[1..], i);
      assert ThreeAt(s, i + 1);
    }
  }

  /** A pass keeps the normal form and shortens every text that still has a run of three. */
  lemma {:induction false} PassKeepsCapped(s: string, k: nat)
    requires k <= 2
    ensures Capped(ReplacePass(s), k) == Capped(s, k)
    ensures |ReplacePass(s)| <= |s| && (HasThree(s) ==> |ReplacePass(s)| < |s|)
  {
    if |s| < 3 {
    } else if ThreeAt(s, 0) {
      var r := ReplacePass(s[3..]);
      PassKeepsCapped(s[3..], 2);
      CappedTwoMore(s, k);
      CappedThreeMore(s, k);
      CappedTwoMore(TWO + r, k);
      assert (TWO + r)[2..] == r;
    } else {
      HasThreeTail(s);
      PassKeepsCapped(s[1..], Next(s[0], k));
      assert ([s[0]] + ReplacePass(s[1..]))[1..] == ReplacePass(s[1..]);
    }
  }

  lemma CappedTwoMore(s: string, k: nat)
    requires k <= 2 && |s| >= 2 && s[0] == s[1] == '\n'
    ensures Capped(s, k) == Newlines(2 - k) + Capped(s[2..], 2)
  {
  }

  lemma CappedThreeMore(s: string, k: nat)
    requires k <= 2 && ThreeAt(s, 0)
    ensures Capped(s, k) == Newlines(2 - k) + Capped(s[3..], 2)
  {
    CappedTwoMore(s, k);
    assert s[2..][1..] == s[3..];
  }

  // ---------------------------------------------------------------- normal texts

  lemma NewlinesSmall()
    ensures Newlines(0) == "" && Newlines(1) == "\n" && Newlines(2) == "\n\n"
  {
  }

  lemma HasThreeSuffix(u: string, s: string)
    requires HasThree(s)
    ensures HasThree(u + s)
  {
    var i :| 0 <= i < |s| && ThreeAt(s, i);
    assert ThreeAt(u + s, |u| + i);
  }

  lemma {:induction false} NormalIsFixed(s: string, k: nat)
    requires k <= 2 && !HasThree(Newlines(k) + s)
    ensures Capped(s, k) == s
  {
    NewlinesSmall();
    if s != "" {
      var u := Newlines(k);
      if s[0] != '\n' {
        assert u + s == u + [s[0]] + s[1..];
        if HasThree(s[1..]) {
          HasThreeSuffix(u + [s[0]], s[1..]);
        }
        assert Newlines(0) + s[1..] == s[1..];
        NormalIsFixed(s[1..], 0);
      } else if k == 2 {
        assert ThreeAt(u + s, 0);
        assert false;
      } else {
        assert u + s == Newlines(k + 1) + s[1..];
        NormalIsFixed(s[1..], k + 1);
      }
    }
  }

  lemma {:induction false} CappedIsNormal(s: string, k: nat)
    requires k <= 2
    ensures !HasThree(Newlines(k) + Capped(s, k))
  {
    NewlinesSmall();
    if s != "" {
      var u, r := Newlines(k), Capped(s[1..], Next(s[0], k));
      CappedIsNormal(s[1..], Next(s[0], k));
      if s[0] != '\n' {
        var t := u + ([s[0]] + r);
        forall i | 0 <= i < |t| ensures !ThreeAt(t, i) {
          if i > k && ThreeAt(t, i) { assert ThreeAt(Newlines(0) + r, i - k - 1); }
        }
      } else if k < 2 {
        assert u + (['\n'] + r) == Newlines(k + 1) + r;
      }
    }
  }

  // ---------------------------------------------------------------- the loop

  /** The newline loop of `_render`: it ends on every text, at the capped form. */
  method CollapseNewlines(text: string) returns (rendered: string)
    ensures rendered == Capped(text, 0)
    ensures !HasThree(rendered)
  {
    rendered := text;
    while HasThree(rendered)
      invariant Capped(rendered, 0) == Capped(text, 0)
      decreases |rendered|
    {
      PassKeepsCapped(rendered, 0);
      rendered := ReplacePass(rendered);
    }
    assert Newlines(0) + rendered == rendered;
    NormalIsFixed(rendered, 0);
  }

  // ---------------------------------------------------------------- strip and guidance

  /** The characters `str.strip()` removes. */
  predicate IsSpace(c: char) {
    var n := c as int;
    (0x09 <= n <= 0x0D) || (0x1C <= n <= 0x20) || n == 0x85 || n == 0xA0 || n == 0x1680 || (0x2000 <= n <= 0x200A)
    || n == 0x2028 || n == 0x2029 || n == 0x202F || n == 0x205F || n == 0x3000
  }

  function StripLeft(s: string): string {
    if s != "" && IsSpace(s[0]) then StripLeft(s[1..]) else s
  }

  function StripRight(s: string): string {
    if s != "" && IsSpace(s[|s| - 1]) then StripRight(s[..|s| - 1]) else s
  }

  function Strip(s: string): string {
    StripRight(StripLeft(s))
  }

  predicate Trimmed(s: string) {
    s == "" || (!IsSpace(s[0]) && !IsSpace(s[|s| - 1]))
  }

  predicate Contains(s: string, part: string) {
    exists i | 0 <= i <= |s| :: part <= s[i..]
  }

  /** The tail of `_render`: collapse, strip, and add the guidance sentence when it is absent. */
  function Finished(text: string, guidance: string): string {
    var body := Strip(Capped(text, 0));
    if Contains(body, guidance) then body else body + TWO + guidance
  }

  method FinishInstruction(text: string, guidance: string) returns (rendered: string)
    ensures rendered == Finished(text, guidance)
  {
    rendered := CollapseNewlines(text);
    rendered := Strip(rendered);
    if !Contains(rendered, guidance) {
      rendered := rendered + TWO + guidance;
    }
  }

  lemma {:induction false} StripLeftIsSuffix(s: string)
    ensures HasThree(StripLeft(s)) ==> HasThree(s)
    ensures StripLeft(s) == "" || !IsSpace(StripLeft(s)[0])
  {
    if s != "" && IsSpace(s[0]) {
      StripLeftIsSuffix(s[1..]);
      HasThreeTail(s);
    }
  }

  lemma {:induction false} StripRightIsPrefix(s: string)
    requires s == "" || !IsSpace(s[0])
    ensures HasThree(StripRight(s)) ==> HasThree(s)
    ensures Trimmed(StripRight(s))
  {
    if s != "" && IsSpace(s[|s| - 1]) {
      StripRightIsPrefix(s[..|s| - 1]);
      if HasThree(s[..|s| - 1]) {
        var i :| 0 <= i < |s| - 1 && ThreeAt(s[..|s| - 1], i);
        assert ThreeAt(s, i);
      }
    }
  }

  predicate Blank(s: string) {
    forall i | 0 <= i < |s| :: IsSpace(s[i])
  }

  lemma {:induction false} StripLeftBlank(s: string)
    ensures StripLeft(s) == "" <==> Blank(s)
  {
    if s != "" {
      StripLeftBlank(s[1..]);
      assert forall i | 0 < i < |s| :: s[i] == s[1..][i - 1];
    }
  }

  lemma StripBlank(s: string)
    ensures Strip(s) == "" <==> Blank(s)
  {
    StripLeftBlank(s);
    StripLeftIsSuffix(s);
    KeepsHead(StripLeft(s));
  }

  lemma {:induction false} KeepsHead(s: string)
    requires s == "" || !IsSpace(s[0])
    ensures s != "" ==> StripRight(s) != ""
  {
    if s != "" && IsSpace(s[|s| - 1]) { KeepsHead(s[..|s| - 1]); }
  }

  lemma BlankCons(c: char, s: string)
    ensures Blank([c] + s) <==> IsSpace(c) && Blank(s)
  {
    assert forall i | 0 <= i < |s| :: ([c] + s)[i + 1] == s[i];
    assert ([c] + s)[0] == c;
  }

  lemma {:induction false} CappedBlank(s: string, k: nat)
    requires k <= 2
    ensures Blank(Capped(s, k)) <==> Blank(s)
  {
    if s != "" {
      CappedBlank(s[1..], Next(s[0], k));
      BlankCons(s[0], s[1..]);
      BlankCons(s[0], Capped(s[1..], Next(s[0], k)));
      assert s == [s[0]] + s[1..];
    }
  }

  lemma NoThreeAcrossGuidance(body: string, guidance: string)
    requires Trimmed(body) && !HasThree(body) && guidance != "" && '\n' !in guidance
    ensures !HasThree(body + TWO + guidance)
  {
    var r := body + TWO + guidance;
    assert body != "" ==> r[|body| - 1] == body[|body| - 1] != '\n';
    assert forall j | |body| + 2 <= j < |r| :: r[j] == guidance[j - |body| - 2] && r[j] in guidance;
    forall i | 0 <= i < |r| ensures !ThreeAt(r, i) {
      if i + 3 <= |body| { assert !ThreeAt(body, i); }
    }
  }

  /** The collapsed and stripped text before the guidance is considered. */
  lemma BodyIsClean(text: string)
    ensures var body := Strip(Capped(text, 0));
      Trimmed(body) && !HasThree(body) && (body == "" <==> Blank(text))
  {
    var capped := Capped(text, 0);
    CappedIsNormal(text, 0);
    assert Newlines(0) + capped == capped;
    StripLeftIsSuffix(capped);
    StripRightIsPrefix(StripLeft(capped));
    CappedBlank(text, 0);
    StripBlank(capped);
  }

  lemma TrimmedIsFixed(r: string)
    requires Trimmed(r)
    ensures Strip(r) == r
  {
  }

  lemma CleanIsFixed(r: string)
    requires !HasThree(r)
    ensures Capped(r, 0) == r && (Trimmed(r) ==> Strip(r) == r)
  {
    assert "" + r == r;
    NewlinesSmall();
    NormalIsFixed(r, 0);
    if Trimmed(r) { TrimmedIsFixed(r); }
  }

  lemma BlankIsUnstable(guidance: string)
    requires guidance != "" && Trimmed(guidance) && '\n' !in guidance
    ensures !Trimmed(TWO + guidance) && Finished(TWO + guidance, guidance) == guidance
  {
    NoThreeAcrossGuidance("", guidance);
    assert "" + TWO + guidance == TWO + guidance;
    CleanIsFixed(TWO + guidance);
    assert (TWO + guidance)[1..][1..] == guidance;
    assert StripLeft(TWO + guidance) == StripLeft((TWO + guidance)[1..]) == StripLeft(guidance) == guidance;
    assert guidance[0..] == guidance;
  }

  /** Every finished instruction carries the guidance and has no run of three newlines.  It is
      trimmed, and finishing it again changes nothing, exactly when the rendered text is not
      blank: a blank one leaves two newlines in front of the guidance. */
  lemma FinishedIsStable(text: string, guidance: string)
    requires guidance != "" && Trimmed(guidance) && '\n' !in guidance
    ensures var r := Finished(text, guidance);
      !HasThree(r) && Contains(r, guidance) &&
      (Trimmed(r) <==> !Blank(text)) && (Finished(r, guidance) == r <==> !Blank(text))
  {
    BodyIsClean(text);
    var body, r := Strip(Capped(text, 0)), Finished(text, guidance);
    hide Strip, Capped, HasThree;
    if !Contains(body, guidance) {
      assert r[|body| + 2..] == guidance;
      NoThreeAcrossGuidance(body, guidance);
    }
    CleanIsFixed(r);
    if Blank(text) {
      BlankIsUnstable(guidance);
      assert !Contains("", guidance);
      assert "" + TWO + guidance == TWO + guidance;
    }
  }

  // ---------------------------------------------------------------- what is kept of the text

  lemma {:induction false} StripLeftDrops(s: string) returns (lead: string)
    ensures s == lead + StripLeft(s) && Blank(lead)
  {
    if s != "" && IsSpace(s[0]) {
      var rest := StripLeftDrops(s[1..]);
      lead := [s[0]] + rest;
      assert s == [s[0]] + s[1..];
    } else {
      lead := "";
    }
  }

  lemma {:induction false} StripRightDrops(s: string) returns (trail: string)
    ensures s == StripRight(s) + trail && Blank(trail)
  {
    if s != "" && IsSpace(s[|s| - 1]) {
      var rest := StripRightDrops(s[..|s| - 1]);
      trail := rest + [s[|s| - 1]];
      assert s == s[..|s| - 1] + [s[|s| - 1]];
    } else {
      trail := "";
    }
  }

  /** The body of a finished instruction: the collapsed text without the spaces around it. */
  ghost predicate IsBody(text: string, body: string) {
    Trimmed(body) && exists lead, trail :: Capped(text, 0) == lead + body + trail && Blank(lead) && Blank(trail)
  }

  /** A finished instruction is its body, with nothing behind it when the guidance occurs in it, and
      otherwise followed by an empty line and the guidance. */
  lemma FinishedKeepsText(text: string, guidance: string) returns (body: string)
    ensures IsBody(text, body) && body <= Finished(text, guidance)
    ensures (exists i, j :: 0 <= i <= j <= |body| && body[i..j] == guidance) ==> Finished(text, guidance) == body
    ensures (forall i, j | 0 <= i <= j <= |body| :: body[i..j] != guidance) ==>
      Finished(text, guidance)[|body|..] == "\n\n" + guidance
  {
    var capped := Capped(text, 0);
    body := Strip(capped);
    BodyIsClean(text);
    var lead := StripLeftDrops(capped);
    var trail := StripRightDrops(StripLeft(capped));
    hide Capped, StripLeft, StripRight, Trimmed, Blank;
    assert capped == lead + body + trail;
    OccursIffContained(body, guidance);
    hide Contains;
  }

  lemma OccursIffContained(body: string, guidance: string)
    ensures Contains(body, guidance) <==> exists i, j :: 0 <= i <= j <= |body| && body[i..j] == guidance
  {
    if i, j :| 0 <= i <= j <= |body| && body[i..j] == guidance { assert guidance <= body[i..]; }
    if Contains(body, guidance) {
      var i :| 0 <= i <= |body| && guidance <= body[i..];
      assert body[i..i + |guidance|] == guidance;
    }
  }
}
