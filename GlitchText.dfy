/**
 * The glitch text effect: once the element is in view and its delay has passed, an
 * interval reveals the text one character at a time, showing random glyphs in place of
 * the characters not yet revealed; each character position stays scrambled for a number
 * of ticks set by the intensity. Each interval callback is one `Tick`; the random glyphs
 * are a parameter, any members of the glyph set.
 */
module GlitchText {

  /** The glyphs the scrambled part of the text is drawn from. */
  const GlitchChars: string := "!@#$%^&*()_+-=[]{}|;:,.<>?/~`01アイウエオ"

  datatype Intensity = Low | Medium | High

  /** Ticks spent on each character position, by intensity (the interval speed is not modelled). */
  function Iterations(g: Intensity): (n: nat)
    ensures n >= 1
  {
    match g
    case Low => 2
    case Medium => 3
    case High => 5
  }

  predicate AllGlyphs(s: string) {
    forall i :: 0 <= i < |s| ==> s[i] in GlitchChars
  }

  /** `text` shows the first `k` characters of `children` and glyphs in every later position. */
  ghost predicate IsGlitchFrame(text: string, children: string, k: nat) {
    && k <= |children|
    && |text| == |children|
    && text[..k] == children[..k]
    && forall j :: k <= j < |text| ==> text[j] in GlitchChars
  }

  /** `revealed + glitched`: the text a revealing tick displays, given the glyphs it drew. */
  function GlitchFrame(children: string, k: nat, noise: string): (text: string)
    requires k <= |children| && |noise| == |children| && AllGlyphs(noise)
    ensures IsGlitchFrame(text, children, k)
  {
    children[..k] + noise[k..]
  }

  /** `n` spaces: what the element renders while nothing has been displayed yet. */
  function Spaces(n: nat): (s: string)
    ensures |s| == n && forall i :: 0 <= i < n ==> s[i] == ' '
  {
    if n == 0 then "" else Spaces(n - 1) + " "
  }

  /** Number of revealing ticks before the interval stops: one round per position 0..len. */
  function RevealTicks(len: nat, iterations: nat): nat {
    (len + 1) * iterations
  }

  lemma MulMonotone(a: nat, b: nat, k: nat)
    requires a <= b
    ensures a * k <= b * k
  {
    assert b * k == a * k + (b - a) * k;
  }

  /** With the counters in range, the tick count has reached the end exactly at the last position. */
  lemma {:induction false} AtEndIffAllTicksDone(c: nat, ic: nat, it: nat, len: nat)
    requires it >= 1 && ic < it && c <= len + 1
    requires c == len + 1 ==> ic == 0
    ensures c * it + ic == RevealTicks(len, it) <==> c == len + 1
  {
    if c <= len {
      MulMonotone(c + 1, len + 1, it);
      assert (c + 1) * it == c * it + it;
    }
  }

  class GlitchText {
    const children: string
    const iterations: nat
    var inView: bool
    var started: bool
    var running: bool
    var currentIndex: nat
    var iterationCount: nat
    var displayText: string
    var isGlitching: bool
    /** Revealing ticks run so far. */
    ghost var ticks: nat

    /** Characters of `children` that the last revealing tick showed. */
    ghost function LastShown(): int
      reads this
    {
      if iterationCount == 0 then currentIndex - 1 else currentIndex
    }

    ghost predicate Valid()
      reads this
    {
      && iterations >= 1
      && iterationCount < iterations
      && currentIndex <= |children| + 1
      && (currentIndex == |children| + 1 ==> iterationCount == 0)
      && ticks == currentIndex * iterations + iterationCount
      && (started ==> inView)
      && (!started ==> !running && ticks == 0 && displayText == "" && !isGlitching)
      && (running ==> isGlitching)
      && (running && ticks == 0 ==> displayText == "")
      && (running && ticks > 0 ==> 0 <= LastShown() && IsGlitchFrame(displayText, children, LastShown()))
      && (started && !running ==>
            currentIndex == |children| + 1 && displayText == children && !isGlitching)
    }

    /** What the element shows: `displayText || children.split('').map(() => ' ').join('')`. */
    function Rendered(): (r: string)
      requires Valid()
      reads this
      ensures |r| == |children|
      ensures r == displayText || forall i :: 0 <= i < |r| ==> r[i] == ' '
    {
      if displayText == "" then Spaces(|children|) else displayText
    }

    constructor (children: string, intensity: Intensity := Medium)
      ensures Valid()
      ensures this.children == children && iterations == Iterations(intensity)
      ensures !inView && !started && !isGlitching && Rendered() == Spaces(|children|)
    {
      this.children := children;
      iterations := Iterations(intensity);
      inView, started, running := false, false, false;
      currentIndex, iterationCount := 0, 0;
      displayText, isGlitching := "", false;
      ticks := 0;
    }

    /** The element scrolls into view (observed once). */
    method EnterView()
      requires Valid()
      modifies this`inView
      ensures Valid() && inView
    {
      inView := true;
    }

    /** The start delay has passed: the effect starts glitching and sets up its interval. */
    method Start()
      requires Valid() && inView && !started
      modifies this`started, this`running, this`isGlitching
      ensures Valid() && started && running && isGlitching
      ensures ticks == 0 && displayText == ""
    {
      isGlitching := true;
      started, running := true, true;
    }

    /**
     * One interval callback. While positions remain it shows the revealed prefix followed by
     * glyphs and advances the counters; after the last position it clears the interval,
     * shows the plain text and stops glitching. It stops exactly after `RevealTicks` ticks.
     */
    method Tick(noise: string)
      requires Valid() && running
      requires |noise| == |children| && AllGlyphs(noise)
      modifies this
      ensures Valid() && started
      ensures old(currentIndex) <= |children| ==>
                && running && ticks == old(ticks) + 1
                && displayText == GlitchFrame(children, old(currentIndex), noise)
      ensures old(currentIndex) > |children| ==>
                !running && displayText == children && !isGlitching && ticks == old(ticks)
      ensures !running <==> old(ticks) == RevealTicks(|children|, iterations)
    {
      AtEndIffAllTicksDone(currentIndex, iterationCount, iterations, |children|);
      if currentIndex <= |children| {
        displayText := GlitchFrame(children, currentIndex, noise);
        ticks := ticks + 1;
        iterationCount := iterationCount + 1;
        if iterationCount >= iterations {
          assert (currentIndex + 1) * iterations == currentIndex * iterations + iterations;
          currentIndex := currentIndex + 1;
          iterationCount := 0;
        }
      } else {
        running := false;
        displayText := children;
        isGlitching := false;
      }
    }
  }
}
