/**
 * The hero section's typing effect (`initTypingEffect` in script.js): a state machine
 * over (phrase index, character index, deleting?) that types a phrase one character
 * at a time, holds it, deletes it, and moves on to the next phrase, scheduling itself
 * again after a delay that depends on what just happened.
 */
module TypingEffect {
  import opened JsString

  /** The phrases the site cycles through. */
  const Phrases: seq<string> := [
    "Full-Stack Developer",
    "UI/UX Designer",
    "Mern Stack Developer",
    "Problem Solver",
    "Creative Thinker"
  ]

  const TypeDelay: nat := 100
  const DeleteDelay: nat := 50
  const HoldDelay: nat := 2000
  const NextPhraseDelay: nat := 500

  predicate NonEmptyPhrases(phrases: seq<string>) {
    |phrases| > 0 && forall i | 0 <= i < |phrases| :: |phrases[i]| > 0
  }

  lemma SitePhrasesNonEmpty()
    ensures NonEmptyPhrases(Phrases)
  {
  }

  /** Each phrase is as many UTF-16 code units long as it has characters, so measuring
      the phrases by characters agrees with `currentPhrase.length`. */
  lemma SitePhraseLengths()
    ensures forall i | 0 <= i < |Phrases| :: Utf16Length(Phrases[i]) == |Phrases[i]|
  {
    forall i | 0 <= i < |Phrases|
      ensures Utf16Length(Phrases[i]) == |Phrases[i]|
    {
      Utf16LengthOfBmp(Phrases[i]);
    }
  }

  /** The closure variables `phraseIndex`, `charIndex` and `isDeleting`. */
  datatype Typist = Typist(phraseIndex: int, charIndex: int, deleting: bool)

  /** What one call of `typeEffect` produces: the new variables, the text it displayed
      and the delay it passed to `setTimeout`. */
  datatype Tick = Tick(next: Typist, text: string, delay: nat)

  /** The part of a call that drives the machine: the new variables and the delay. */
  datatype Move = Move(next: Typist, delay: nat)

  /** How one call of `typeEffect` moves the variables and picks the delay. */
  function Advance(phrases: seq<string>, t: Typist): (m: Move)
    requires 0 <= t.phraseIndex < |phrases|
    ensures 0 <= m.next.phraseIndex < |phrases|
  {
    var c := if t.deleting then t.charIndex - 1 else t.charIndex + 1;
    if !t.deleting && c == |phrases[t.phraseIndex]| then
      Move(Typist(t.phraseIndex, c, true), HoldDelay)
    else if t.deleting && c == 0 then
      Move(Typist((t.phraseIndex + 1) % |phrases|, c, false), NextPhraseDelay)
    else
      Move(Typist(t.phraseIndex, c, t.deleting), if t.deleting then DeleteDelay else TypeDelay)
  }

  /** The text one call of `typeEffect` displays: the phrase cut at the new character
      index, whenever that index lies within the phrase. */
  function Shown(phrases: seq<string>, t: Typist): (r: string)
    requires 0 <= t.phraseIndex < |phrases|
    ensures var c := if t.deleting then t.charIndex - 1 else t.charIndex + 1;
      0 <= c <= |phrases[t.phraseIndex]| ==> r == phrases[t.phraseIndex][..c]
  {
    var phrase := phrases[t.phraseIndex];
    if t.deleting then Substring(phrase, 0, t.charIndex - 1) else Substring(phrase, 0, t.charIndex + 1)
  }

  /** One call of `typeEffect`. */
  function Step(phrases: seq<string>, t: Typist): (r: Tick)
    requires 0 <= t.phraseIndex < |phrases|
    ensures 0 <= r.next.phraseIndex < |phrases|
  {
    var m := Advance(phrases, t);
    Tick(m.next, Shown(phrases, t), m.delay)
  }

  /** The states the machine can be in between two calls: while typing, some characters
      are still to come; while deleting, some are still to go. */
  predicate Inv(phrases: seq<string>, t: Typist) {
    && 0 <= t.phraseIndex < |phrases|
    && var n := |phrases[t.phraseIndex]|;
    if t.deleting then 1 <= t.charIndex <= n else 0 <= t.charIndex < n
  }

  /** Every step keeps the invariant, shows exactly the first `charIndex` characters of
      the current phrase, and picks its delay by what happened. */
  lemma StepSpec(phrases: seq<string>, t: Typist)
    requires NonEmptyPhrases(phrases) && Inv(phrases, t)
    ensures var r := Step(phrases, t);
      && Inv(phrases, r.next)
      && 0 <= r.next.charIndex <= |phrases[r.next.phraseIndex]|
      && r.text == phrases[r.next.phraseIndex][..r.next.charIndex]
    ensures var r := Step(phrases, t); var n := |phrases[t.phraseIndex]|;
      if !t.deleting && t.charIndex + 1 == n then
        r.next == Typist(t.phraseIndex, n, true) && r.delay == HoldDelay
      else if t.deleting && t.charIndex == 1 then
        r.next == Typist((t.phraseIndex + 1) % |phrases|, 0, false) && r.delay == NextPhraseDelay
      else if t.deleting then
        r.next == Typist(t.phraseIndex, t.charIndex - 1, true) && r.delay == DeleteDelay
      else
        r.next == Typist(t.phraseIndex, t.charIndex + 1, false) && r.delay == TypeDelay
  {
  }

  /** `k` consecutive calls: the final variables and the delays scheduled, in order. */
  function Run(phrases: seq<string>, t: Typist, k: nat): (r: (Typist, seq<nat>))
    requires 0 <= t.phraseIndex < |phrases|
    ensures 0 <= r.0.phraseIndex < |phrases|
    ensures |r.1| == k
    decreases k
  {
    if k == 0 then (t, [])
    else
      var m := Advance(phrases, t);
      var rest := Run(phrases, m.next, k - 1);
      (rest.0, [m.delay] + rest.1)
  }

  function Repeat(x: nat, n: nat): (r: seq<nat>)
    ensures |r| == n && forall i | 0 <= i < n :: r[i] == x
  {
    seq(n, _ => x)
  }

  /** The first of `k` steps, taken apart from the rest. */
  lemma RunFirst(phrases: seq<string>, t: Typist, k: nat)
    requires 0 <= t.phraseIndex < |phrases| && k > 0
    ensures var m := Advance(phrases, t); var rest := Run(phrases, m.next, k - 1);
      Run(phrases, t, k) == (rest.0, [m.delay] + rest.1)
  {
  }

  /** Running `a + b` steps is running `a` steps and then `b` more. */
  lemma {:induction false} RunSplit(phrases: seq<string>, t: Typist, a: nat, b: nat)
    requires 0 <= t.phraseIndex < |phrases|
    ensures var first := Run(phrases, t, a); var second := Run(phrases, first.0, b);
      Run(phrases, t, a + b) == (second.0, first.1 + second.1)
    decreases a
  {
    if a > 0 {
      var tick := Advance(phrases, t);
      RunSplit(phrases, tick.next, a - 1, b);
      RunFirst(phrases, t, a);
      RunFirst(phrases, t, a + b);
      var first := Run(phrases, tick.next, a - 1);
      var second := Run(phrases, first.0, b);
      assert a + b - 1 == a - 1 + b;
      assert [tick.delay] + (first.1 + second.1) == ([tick.delay] + first.1) + second.1;
    } else {
      assert Run(phrases, t, a).1 + Run(phrases, t, b).1 == Run(phrases, t, b).1;
    }
  }

  /** Typing from character `c` reaches the whole phrase after `|phrase| - c` steps,
      at 100 ms each and 2000 ms for the last, and then starts deleting. */
  lemma {:induction false} TypeToEnd(phrases: seq<string>, p: int, c: int)
    requires NonEmptyPhrases(phrases) && 0 <= p < |phrases| && 0 <= c < |phrases[p]|
    ensures Run(phrases, Typist(p, c, false), |phrases[p]| - c)
      == (Typist(p, |phrases[p]|, true), Repeat(TypeDelay, |phrases[p]| - c - 1) + [HoldDelay])
    decreases |phrases[p]| - c
  {
    var n := |phrases[p]|;
    var t := Typist(p, c, false);
    var tick := Advance(phrases, t);
    var rest := Run(phrases, tick.next, n - c - 1);
    assert Run(phrases, t, n - c) == (rest.0, [tick.delay] + rest.1);
    if c + 1 < n {
      assert tick.next == Typist(p, c + 1, false) && tick.delay == TypeDelay;
      TypeToEnd(phrases, p, c + 1);
      var r := Repeat(TypeDelay, n - c - 2);
      assert Repeat(TypeDelay, n - c - 1) == [TypeDelay] + r;
      assert [TypeDelay] + (r + [HoldDelay]) == ([TypeDelay] + r) + [HoldDelay];
    } else {
      assert tick.next == Typist(p, n, true) && tick.delay == HoldDelay;
      assert rest == (tick.next, []);
      assert Repeat(TypeDelay, 0) + [HoldDelay] == [HoldDelay] == [tick.delay] + rest.1;
    }
  }

  /** Deleting from character `c` empties the phrase after `c` steps, at 50 ms each and
      500 ms for the last, and then types the next phrase (after the last, the first). */
  lemma {:induction false} DeleteToStart(phrases: seq<string>, p: int, c: int)
    requires NonEmptyPhrases(phrases) && 0 <= p < |phrases| && 1 <= c <= |phrases[p]|
    ensures Run(phrases, Typist(p, c, true), c)
      == (Typist((p + 1) % |phrases|, 0, false), Repeat(DeleteDelay, c - 1) + [NextPhraseDelay])
    decreases c
  {
    var t := Typist(p, c, true);
    var tick := Advance(phrases, t);
    var rest := Run(phrases, tick.next, c - 1);
    assert Run(phrases, t, c) == (rest.0, [tick.delay] + rest.1);
    if c > 1 {
      assert tick.next == Typist(p, c - 1, true) && tick.delay == DeleteDelay;
      DeleteToStart(phrases, p, c - 1);
      var r := Repeat(DeleteDelay, c - 2);
      assert Repeat(DeleteDelay, c - 1) == [DeleteDelay] + r;
      assert [DeleteDelay] + (r + [NextPhraseDelay]) == ([DeleteDelay] + r) + [NextPhraseDelay];
    } else {
      assert tick.next == Typist((p + 1) % |phrases|, 0, false) && tick.delay == NextPhraseDelay;
      assert rest == (tick.next, []);
      assert Repeat(DeleteDelay, 0) + [NextPhraseDelay] == [NextPhraseDelay] == [tick.delay] + rest.1;
    }
  }

  /** A whole phrase takes `2 * |phrase|` steps: type it, hold it, delete it, then go to
      the next phrase, wrapping from the last phrase back to the first. */
  lemma PhraseCycle(phrases: seq<string>, p: int)
    requires NonEmptyPhrases(phrases) && 0 <= p < |phrases|
    ensures var n := |phrases[p]|;
      Run(phrases, Typist(p, 0, false), 2 * n)
      == (Typist((p + 1) % |phrases|, 0, false),
          Repeat(TypeDelay, n - 1) + [HoldDelay] + Repeat(DeleteDelay, n - 1) + [NextPhraseDelay])
  {
    var n := |phrases[p]|;
    RunSplit(phrases, Typist(p, 0, false), n, n);
    TypeToEnd(phrases, p, 0);
    DeleteToStart(phrases, p, n);
    var typed, deleted := Repeat(TypeDelay, n - 1), Repeat(DeleteDelay, n - 1);
    assert (typed + [HoldDelay]) + (deleted + [NextPhraseDelay])
      == typed + [HoldDelay] + deleted + [NextPhraseDelay];
    assert n + n == 2 * n;
  }

  /** The `.typing-text` element and the closure of `initTypingEffect`. */
  class TypingText {
    const phrases: seq<string>
    var phraseIndex: int
    var charIndex: int
    var isDeleting: bool
    /** The element's `textContent`. */
    var text: string
    /** The delay of the pending `setTimeout(typeEffect, ...)`. */
    var nextDelay: nat

    ghost predicate Valid()
      reads this
    {
      NonEmptyPhrases(phrases) && Inv(phrases, State())
    }

    function State(): Typist
      reads this
    {
      Typist(phraseIndex, charIndex, isDeleting)
    }

    /** `initTypingEffect`: start at the first phrase, typing, and call `typeEffect` once. */
    constructor (phrases: seq<string>)
      requires NonEmptyPhrases(phrases)
      ensures this.phrases == phrases && Valid()
      ensures State() == Step(phrases, Typist(0, 0, false)).next
      ensures text == phrases[0][..1]
      ensures nextDelay == Step(phrases, Typist(0, 0, false)).delay
    {
      this.phrases := phrases;
      phraseIndex, charIndex, isDeleting := 0, 0, false;
      text := "";
      nextDelay := 0;
      new;
      TypeEffect();
    }

    /** `typeEffect`: one step of the machine, which keeps the invariant and leaves the
        displayed text equal to the first `charIndex` characters of the current phrase. */
    method TypeEffect()
      requires Valid()
      modifies this
      ensures Valid()
      ensures State() == Step(phrases, old(State())).next
      ensures nextDelay == Step(phrases, old(State())).delay
      ensures text == phrases[phraseIndex][..charIndex]
    {
      StepSpec(phrases, State());
      var currentPhrase := phrases[phraseIndex];
      if isDeleting {
        text := Substring(currentPhrase, 0, charIndex - 1);
        charIndex := charIndex - 1;
      } else {
        text := Substring(currentPhrase, 0, charIndex + 1);
        charIndex := charIndex + 1;
      }
      var typeSpeed := if isDeleting then DeleteDelay else TypeDelay;
      if !isDeleting && charIndex == |currentPhrase| {
        typeSpeed := HoldDelay;
        isDeleting := true;
      } else if isDeleting && charIndex == 0 {
        isDeleting := false;
        phraseIndex := (phraseIndex + 1) % |phrases|;
        typeSpeed := NextPhraseDelay;
      }
      nextDelay := typeSpeed;
    }
  }
}
