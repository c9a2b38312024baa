/** The typewriter effect used for the intro title, the intro subtitle and
    each question: one more character of `text` per timeout, then a single
    completion callback. The timeout delay and the blinking cursor are
    timing and decoration, so a step here is one run of the stepping effect:
    either a character is added when its timeout fires, or, once all are
    shown, the animation completes at once, without a timeout. */
module Typing {

  /** `displayText`, `currentIndex` and `completed` of one animation, with
      the text it types; `fired` counts the `onComplete` calls made for that
      text. */
  datatype Typer = Typer(text: string, display: string, index: nat, completed: bool, fired: nat)

  /** What the animation keeps true: the text shown is the first `index`
      characters of `text`; it is complete only once the whole text is shown;
      and `onComplete` has been called once if complete and never otherwise. */
  predicate Valid(t: Typer) {
    && t.index <= |t.text|
    && t.display == t.text[..t.index]
    && (t.completed ==> t.index == |t.text|)
    && t.fired == (if t.completed then 1 else 0)
  }

  /** A fresh animation, or the reset effect after `text` changes: nothing
      shown, nothing completed, no callback made for the new text. */
  function Restart(text: string): (r: Typer)
    ensures Valid(r) && r.text == text && r.display == [] && !r.completed
  {
    Typer(text, "", 0, false, 0)
  }

  /** One run of the stepping effect: a completed animation stays put;
      otherwise the next character is appended, or, with the whole text
      shown, the animation completes and calls `onComplete`. */
  function Step(t: Typer): (r: Typer)
    ensures r.text == t.text
    ensures t.completed ==> r == t
    ensures r.fired <= t.fired + 1
  {
    if t.completed then t
    else if t.index < |t.text| then
      t.(display := t.display + [t.text[t.index]], index := t.index + 1)
    else
      t.(completed := true, fired := t.fired + 1)
  }

  /** Each step keeps the prefix invariant and the at-most-once callback. */
  lemma StepKeepsValid(t: Typer)
    requires Valid(t)
    ensures Valid(Step(t))
    ensures Step(t).index == if t.index < |t.text| then t.index + 1 else t.index
  {
    if !t.completed && t.index < |t.text| {
      assert t.text[..t.index + 1] == t.text[..t.index] + [t.text[t.index]];
    }
  }

  /** `n` runs of the stepping effect. */
  function Steps(t: Typer, n: nat): Typer
    decreases n
  {
    if n == 0 then t else Steps(Step(t), n - 1)
  }

  function Min(a: nat, b: nat): nat {
    if a <= b then a else b
  }

  /** From any valid state, `n` steps show `n` more characters (up to the
      whole text) and complete exactly when a step is left over after the
      last character. */
  lemma {:induction false} StepsAdvance(t: Typer, n: nat)
    requires Valid(t)
    ensures Valid(Steps(t, n))
    ensures Steps(t, n).text == t.text
    ensures Steps(t, n).index == Min(t.index + n, |t.text|)
    ensures Steps(t, n).completed <==> t.completed || t.index + n > |t.text|
    decreases n
  {
    if n > 0 {
      StepKeepsValid(t);
      StepsAdvance(Step(t), n - 1);
    }
  }

  /** Typing `text` from the start: after `n` steps the first `n` characters
      show; the animation completes on step `|text| + 1`, having shown the
      whole text, and `onComplete` is called exactly once however long it
      keeps running. */
  lemma TypesOutOnce(text: string, n: nat)
    ensures Steps(Restart(text), n).display == text[..Min(n, |text|)]
    ensures Steps(Restart(text), n).completed <==> n > |text|
    ensures Steps(Restart(text), n).completed ==> Steps(Restart(text), n).display == text
    ensures Steps(Restart(text), n).fired == if n > |text| then 1 else 0
  {
    StepsAdvance(Restart(text), n);
  }
}
