/**
 * The text-scramble hook of src/pages/Journey.jsx (`useTextScramble`): an
 * interval advances a frame counter; each frame shows the final text with
 * the not-yet-revealed characters replaced by random ones, and frame 22
 * shows the final text and stops the interval.
 */
module Scramble {

  /** `chars`: the characters a scrambled position is drawn from. */
  const Alphabet: string := "アイウエオカキクケコサシスセソタチツテトナニヌネノ!@#$%^&*░▒▓"

  /** `totalFrames` */
  const TotalFrames: int := 22

  /** Spaces, newlines and commas are never scrambled. */
  predicate Kept(c: char)
  {
    c == ' ' || c == '\n' || c == ','
  }

  /** `i / finalText.length < progress`, where `progress = frame / totalFrames`. */
  predicate Revealed(i: int, len: int, frame: int)
  {
    len > 0 && (i as real) / (len as real) < (frame as real) / (TotalFrames as real)
  }

  /**
   * The random draws of one frame: `Math.floor(Math.random() * chars.length)`
   * for each position, an index into the alphabet.
   */
  predicate ValidDraws(finalText: string, draws: seq<nat>)
  {
    |draws| == |finalText| && forall i :: 0 <= i < |draws| ==> draws[i] < |Alphabet|
  }

  /** The text of a frame before the last one, for the given random draws. */
  function ScrambledText(finalText: string, frame: int, draws: seq<nat>): (r: string)
    requires ValidDraws(finalText, draws)
    ensures |r| == |finalText|
  {
    seq(|finalText|, i requires 0 <= i < |finalText| =>
      var c := finalText[i];
      if Kept(c) then c
      else if Revealed(i, |finalText|, frame) then c
      else Alphabet[draws[i]])
  }

  /** The text shown after the counter reaches `frame`. */
  function FrameText(finalText: string, frame: int, draws: seq<nat>): string
    requires ValidDraws(finalText, draws)
  {
    if frame >= TotalFrames then finalText else ScrambledText(finalText, frame, draws)
  }

  /**
   * The frames the hook can show at counter `frame`, stated without the
   * random draws: same length, kept and revealed positions hold the final
   * character, every other position some character of the alphabet.
   */
  ghost predicate PossibleFrame(finalText: string, frame: int, shown: string)
  {
    && |shown| == |finalText|
    && (frame >= TotalFrames ==> shown == finalText)
    && forall i :: 0 <= i < |shown| ==>
         if Kept(finalText[i]) || Revealed(i, |finalText|, frame) then shown[i] == finalText[i]
         else shown[i] in Alphabet
  }

  // ---------------------------------------------------------------------------
  // Properties

  /** The reveal test in integers: position `i` is revealed when `22 * i < frame * len`. */
  lemma RevealedIff(i: int, len: int, frame: int)
    requires len > 0
    ensures Revealed(i, len, frame) <==> i * TotalFrames < frame * len
  {
    var a, b := (i as real) / (len as real), (frame as real) / (TotalFrames as real);
    assert a * (len as real) == i as real;
    assert b * (TotalFrames as real) == frame as real;
    assert a < b <==> a * (len as real) * (TotalFrames as real) < b * (TotalFrames as real) * (len as real);
  }

  /** A position revealed at one frame stays revealed at every later frame. */
  lemma RevealGrows(i: int, len: int, f1: int, f2: int)
    requires f1 <= f2
    requires Revealed(i, len, f1)
    ensures Revealed(i, len, f2)
  {
  }

  /** At frame 22 every position is revealed; at frame 0 none is. */
  lemma RevealBounds(i: int, len: int)
    requires 0 <= i < len
    ensures Revealed(i, len, TotalFrames)
    ensures !Revealed(i, len, 0)
  {
    RevealedIff(i, len, TotalFrames);
    RevealedIff(i, len, 0);
  }

  /**
   * Every frame the hook computes is a possible frame: same length as the
   * final text, spaces, newlines and commas in place, the revealed prefix
   * equal to the final text, and from frame 22 on the final text itself.
   */
  lemma FrameTextPossible(finalText: string, frame: int, draws: seq<nat>)
    requires ValidDraws(finalText, draws)
    ensures PossibleFrame(finalText, frame, FrameText(finalText, frame, draws))
  {
    var r := FrameText(finalText, frame, draws);
    forall i | 0 <= i < |r|
      ensures if Kept(finalText[i]) || Revealed(i, |finalText|, frame) then r[i] == finalText[i]
              else r[i] in Alphabet
    {
      if frame < TotalFrames && !Kept(finalText[i]) && !Revealed(i, |finalText|, frame) {
        assert r[i] == Alphabet[draws[i]];
      }
    }
  }

  /** The index of a character in the alphabet. */
  function AlphabetIndex(c: char, from: nat): (k: nat)
    requires from <= |Alphabet|
    requires c in Alphabet[from..]
    ensures from <= k < |Alphabet| && Alphabet[k] == c
    decreases |Alphabet| - from
  {
    if Alphabet[from] == c then from
    else
      assert Alphabet[from..] == [Alphabet[from]] + Alphabet[from + 1..];
      AlphabetIndex(c, from + 1)
  }

  /** Conversely, every possible frame is what some random draws produce. */
  lemma PossibleFrameReachable(finalText: string, frame: int, shown: string)
    requires PossibleFrame(finalText, frame, shown)
    ensures exists draws :: ValidDraws(finalText, draws) && FrameText(finalText, frame, draws) == shown
  {
    var n := |finalText|;
    var draws: seq<nat> := seq(n, i requires 0 <= i < n =>
      if Kept(finalText[i]) || Revealed(i, n, frame) then 0
      else assert Alphabet[0..] == Alphabet; AlphabetIndex(shown[i], 0));
    assert ValidDraws(finalText, draws);
    if frame < TotalFrames {
      var r := FrameText(finalText, frame, draws);
      forall i | 0 <= i < n
        ensures r[i] == shown[i]
      {
      }
      assert r == shown;
    }
  }

  /**
   * The hook's state. `displayText` is React state initialised to the final
   * text; `frame` is the counter of the running interval, `running` whether
   * that interval is still installed.
   */
  class TextScramble {
    const finalText: string
    var displayText: string
    var frame: int
    var running: bool

    /** What holds between ticks: a stopped hook shows the final text, a running one a possible frame. */
    ghost predicate Valid()
      reads this
    {
      && 0 <= frame <= TotalFrames
      && (running ==> frame < TotalFrames)
      && (!running ==> displayText == finalText)
      && (frame > 0 ==> PossibleFrame(finalText, frame, displayText))
      && (frame == 0 ==> displayText == finalText)
    }

    /** Mounting the hook; the interval is installed only when `trigger` is set. */
    constructor (finalText: string, trigger: bool)
      ensures Valid()
      ensures this.finalText == finalText && displayText == finalText
      ensures frame == 0 && running == trigger
    {
      this.finalText := finalText;
      displayText := finalText;
      frame := 0;
      running := trigger;
    }

    /** One interval callback, with the random draws it makes. */
    method Tick(draws: seq<nat>)
      requires Valid() && running
      requires ValidDraws(finalText, draws)
      modifies this
      ensures Valid()
      ensures frame == old(frame) + 1
      ensures displayText == FrameText(finalText, frame, draws)
      ensures running <==> frame < TotalFrames
    {
      frame := frame + 1;
      if frame >= TotalFrames {
        displayText := finalText;
        running := false;
        return;
      }
      displayText := ScrambledText(finalText, frame, draws);
      FrameTextPossible(finalText, frame, draws);
    }

    /**
     * The interval from mounting to its end: it fires exactly 22 times and
     * leaves the final text on screen.
     */
    method Animate(drawsPerFrame: seq<seq<nat>>)
      requires Valid() && running && frame == 0
      requires |drawsPerFrame| >= TotalFrames
      requires forall k :: 0 <= k < |drawsPerFrame| ==> ValidDraws(finalText, drawsPerFrame[k])
      modifies this
      ensures Valid() && !running
      ensures frame == TotalFrames && displayText == finalText
    {
      while running
        invariant Valid()
        invariant running <==> frame < TotalFrames
        decreases TotalFrames - frame
      {
        Tick(drawsPerFrame[frame]);
      }
    }
  }
}
