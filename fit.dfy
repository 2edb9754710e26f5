/** The fit-sizing search of the display view: scan font sizes downward from
    80% of the container's smaller side, in steps of 3 px while the size is above
    20 px, and keep the first size at which the probe holding each word is
    measured no wider than 90% of the container and the whole block is at most
    90% of its height. */
module FitSearch {
  import opened TextWords

  /** The client size of the display container, in whole CSS pixels. */
  datatype Box = Box(width: nat, height: nat)

  /** The browser's layout engine as seen through the hidden probe element:
      `blockHeight(text, size)` is the probe's `offsetHeight` holding `text` at
      font size `size` (the probe is 90% of the container wide), and
      `wordWidth(word, size)` its `offsetWidth` holding one word. */
  datatype Measurer = Measurer(blockHeight: (string, real) -> nat, wordWidth: (string, real) -> nat)

  /** The scan goes on only while the candidate is above this size. */
  const FloorSize: real := 20.0

  /** Each rejected candidate is reduced by this much. */
  const StepSize: real := 3.0

  /** `Math.min(containerWidth, containerHeight) * 0.8`: 80% of the smaller
      side of the container. */
  function StartSize(b: Box): (start: real)
    ensures start <= b.width as real * 0.8 && start <= b.height as real * 0.8
    ensures start == b.width as real * 0.8 || start == b.height as real * 0.8
  {
    (if b.width <= b.height then b.width else b.height) as real * 0.8
  }

  /** The candidate after `k` rejected ones. */
  function Candidate(start: real, k: nat): real
  {
    start - StepSize * k as real
  }

  /** The probe holding the word is measured wider than 90% of the container
      at this size. */
  predicate TooWide(m: Measurer, b: Box, word: string, size: real)
  {
    m.wordWidth(word, size) as real > b.width as real * 0.9
  }

  predicate SomeWordTooWide(m: Measurer, b: Box, words: seq<string>, size: real)
  {
    exists i :: 0 <= i < |words| && TooWide(m, b, words[i], size)
  }

  /** The whole block is at most 90% of the container high at this size. */
  predicate FitsHeight(m: Measurer, b: Box, text: string, size: real)
  {
    m.blockHeight(text, size) as real <= b.height as real * 0.9
  }

  /** The acceptance test applied to each candidate. */
  predicate Accepts(m: Measurer, b: Box, text: string, words: seq<string>, size: real)
  {
    !SomeWordTooWide(m, b, words, size) && FitsHeight(m, b, text, size)
  }

  /** The scan stops at this candidate: it is not above the floor, or it is accepted. */
  predicate Stops(m: Measurer, b: Box, text: string, words: seq<string>, size: real)
  {
    size <= FloorSize || Accepts(m, b, text, words, size)
  }

  /** `k` is the first grid step at which the scan stops. */
  ghost predicate FirstStop(m: Measurer, b: Box, text: string, words: seq<string>, start: real, k: nat)
  {
    Stops(m, b, text, words, Candidate(start, k))
    && forall j :: 0 <= j < k ==> !Stops(m, b, text, words, Candidate(start, j))
  }

  /** The number of steps the scan takes when it has already rejected `k`
      candidates: the first step from `k` on at which it stops. */
  function FitSteps(m: Measurer, b: Box, text: string, words: seq<string>, start: real, k: nat): (n: nat)
    ensures k <= n
    ensures Stops(m, b, text, words, Candidate(start, n))
    ensures forall j :: k <= j < n ==> Candidate(start, j) > FloorSize && !Accepts(m, b, text, words, Candidate(start, j))
    decreases if Candidate(start, k) > FloorSize then (Candidate(start, k) - FloorSize).Floor + 1 else 0
  {
    if Stops(m, b, text, words, Candidate(start, k)) then k
    else FitSteps(m, b, text, words, start, k + 1)
  }

  /** The font size the search settles on for `text` in container `b`: a
      size at which the scan stops, being either at most 20 or accepted. */
  function FitSize(m: Measurer, b: Box, text: string): (size: real)
    ensures Stops(m, b, text, Words(text), size)
  {
    Candidate(StartSize(b), FitSteps(m, b, text, Words(text), StartSize(b), 0))
  }

  /** The inner `for ... of` loop over the words: measures them in order and
      stops at the first one that is too wide. `measured` is how many words were
      measured. */
  method CheckWords(m: Measurer, b: Box, words: seq<string>, size: real) returns (wordTooBig: bool, measured: nat)
    ensures wordTooBig <==> SomeWordTooWide(m, b, words, size)
    ensures measured <= |words|
    ensures forall i :: 0 <= i < measured && (i < measured - 1 || !wordTooBig) ==> !TooWide(m, b, words[i], size)
    ensures wordTooBig ==> 0 < measured && TooWide(m, b, words[measured - 1], size)
    ensures !wordTooBig ==> measured == |words|
  {
    wordTooBig := false;
    measured := 0;
    while measured < |words|
      invariant measured <= |words|
      invariant forall i :: 0 <= i < measured ==> !TooWide(m, b, words[i], size)
    {
      var word := words[measured];
      measured := measured + 1;
      if m.wordWidth(word, size) as real > b.width as real * 0.9 {
        wordTooBig := true;
        break;
      }
    }
  }

  /** The `while` loop of the effect: returns the size written to `fontSize`. */
  method FitFontSize(m: Measurer, b: Box, text: string) returns (testFontSize: real)
    ensures testFontSize == FitSize(m, b, text)
  {
    testFontSize := (if b.width <= b.height then b.width else b.height) as real * 0.8;
    var words := Words(text);
    ghost var start := testFontSize;
    ghost var k: nat := 0;
    while testFontSize > FloorSize
      invariant start == StartSize(b) && testFontSize == Candidate(start, k)
      invariant FitSteps(m, b, text, words, start, k) == FitSteps(m, b, text, words, start, 0)
      decreases (testFontSize - FloorSize).Floor
    {
      var textHeight := m.blockHeight(text, testFontSize);
      var wordTooBig, _ := CheckWords(m, b, words, testFontSize);
      if !wordTooBig && textHeight as real <= b.height as real * 0.9 {
        break;
      }
      testFontSize := testFontSize - StepSize;
      k := k + 1;
    }
  }

  /** The result is a grid value `start - 3k` at which the scan stops, every
      earlier grid value being above the floor and rejected. */
  lemma FitSizeOnGrid(m: Measurer, b: Box, text: string)
    ensures exists k: nat :: FitSize(m, b, text) == Candidate(StartSize(b), k)
                             && FirstStop(m, b, text, Words(text), StartSize(b), k)
  {
    var k := FitSteps(m, b, text, Words(text), StartSize(b), 0);
    assert FirstStop(m, b, text, Words(text), StartSize(b), k);
  }

  /** Conversely, the first grid value at which the scan stops is the result. */
  lemma FirstStopIsFitSize(m: Measurer, b: Box, text: string, k: nat)
    requires FirstStop(m, b, text, Words(text), StartSize(b), k)
    ensures FitSize(m, b, text) == Candidate(StartSize(b), k)
  {
    var n := FitSteps(m, b, text, Words(text), StartSize(b), 0);
    assert n == k;
  }

  /** A result above the floor passes the acceptance test: the probe holding
      each word is measured no wider than 90% of the container and the block is
      at most 90% of its height. */
  lemma FitSizeAccepted(m: Measurer, b: Box, text: string)
    ensures FitSize(m, b, text) > FloorSize ==>
      (forall i :: 0 <= i < |Words(text)| ==> !TooWide(m, b, Words(text)[i], FitSize(m, b, text)))
      && FitsHeight(m, b, text, FitSize(m, b, text))
  {
  }

  /** Every grid value above the result is above the floor and was rejected,
      so the result is the largest accepted grid value. */
  lemma FitSizeMaximal(m: Measurer, b: Box, text: string, j: nat)
    ensures Candidate(StartSize(b), j) > FitSize(m, b, text) ==>
      Candidate(StartSize(b), j) > FloorSize && !Accepts(m, b, text, Words(text), Candidate(StartSize(b), j))
  {
    var n := FitSteps(m, b, text, Words(text), StartSize(b), 0);
    if Candidate(StartSize(b), j) > FitSize(m, b, text) {
      assert j < n;
    }
  }

  /** With a start above the floor the result lies in (17, start]; with a start
      at or below the floor the loop body never runs and the result is the start. */
  lemma FitSizeBounds(m: Measurer, b: Box, text: string)
    ensures StartSize(b) > FloorSize ==> FloorSize - StepSize < FitSize(m, b, text) <= StartSize(b)
    ensures StartSize(b) <= FloorSize ==> FitSize(m, b, text) == StartSize(b)
  {
    var n := FitSteps(m, b, text, Words(text), StartSize(b), 0);
    if n > 0 {
      assert Candidate(StartSize(b), n - 1) > FloorSize;
    }
  }

  /** When no grid value above the floor is accepted the search gives up at the
      first grid value at or below 20, which need not be 20 itself. */
  lemma FitSizeDegenerate(m: Measurer, b: Box, text: string)
    requires forall j: nat :: Candidate(StartSize(b), j) > FloorSize ==> !Accepts(m, b, text, Words(text), Candidate(StartSize(b), j))
    ensures FitSize(m, b, text) <= FloorSize
    ensures StartSize(b) > FloorSize ==> FitSize(m, b, text) > FloorSize - StepSize
  {
    FitSizeBounds(m, b, text);
  }

  /** An 800 x 600 container and a text that fits at any size: the first
      candidate, 480, is kept. */
  lemma FitSizeFirstCandidate(text: string)
    ensures FitSize(Measurer((t, z) => 0, (w, z) => 0), Box(800, 600), text) == 480.0
  {
    var m := Measurer((t: string, z: real) => 0, (w: string, z: real) => 0);
    var b := Box(800, 600);
    assert StartSize(b) == 480.0;
    assert !SomeWordTooWide(m, b, Words(text), 480.0);
    assert Stops(m, b, text, Words(text), Candidate(480.0, 0));
  }

  /** An 800 x 600 container and a word too wide at every size: the search
      ends at 18, the first candidate at or below the floor. */
  lemma FitSizeNothingFits(text: string)
    ensures FitSize(Measurer((t, z) => 0, (w, z) => 10000), Box(800, 600), text) == 18.0
  {
    var m := Measurer((t: string, z: real) => 0, (w: string, z: real) => 10000);
    var b := Box(800, 600);
    var words := Words(text);
    assert StartSize(b) == 480.0;
    assert |words| >= 1 && TooWide(m, b, words[0], 480.0);
    forall j: nat | Candidate(StartSize(b), j) > FloorSize
      ensures !Accepts(m, b, text, words, Candidate(StartSize(b), j))
    {
      assert TooWide(m, b, words[0], Candidate(StartSize(b), j));
    }
    FitSizeDegenerate(m, b, text);
    FitSizeOnGrid(m, b, text);
    var k: nat :| FitSize(m, b, text) == Candidate(StartSize(b), k);
    OnlyGridValueInLastStep(k);
  }

  /** 18 is the only value `480 - 3k` in (17, 20]. */
  lemma OnlyGridValueInLastStep(k: nat)
    requires FloorSize - StepSize < Candidate(480.0, k) <= FloorSize
    ensures Candidate(480.0, k) == 18.0
  {
    assert 460.0 <= 3.0 * k as real < 463.0;
    assert k == 154;
  }
}
