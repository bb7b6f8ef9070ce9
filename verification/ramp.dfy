/**
 Brightness-to-character mapping: a brightness in [0, 1] selects a position in
 a ramp of characters ordered from the densest glyph to a blank.
 */
module Ramp {

  /** The output ramp, densest glyph first and a blank last. */
  const OutputCharSet: string := "@%#*+=-:. "

  /** Position in a ramp of `len` characters for brightness `b`: the bucket
      floor(b * len), the top bucket being closed so that b = 1 selects the
      last character. */
  function OutputIndex(b: real, len: nat): (i: int)
    ensures 0 < len && 0.0 <= b < 1.0 ==> i as real <= b * len as real < (i + 1) as real
    ensures 0 < len && b == 1.0 ==> i == len - 1
  {
    ScaledBelowLen(b, len);
    var raw := (b * len as real).Floor;
    if raw == len then raw - 1 else raw
  }

  /** A brightness below 1 scales to below the ramp length. */
  lemma ScaledBelowLen(b: real, len: nat)
    ensures 0 < len && 0.0 <= b < 1.0 ==> b * len as real < len as real
  {
    if 0 < len && 0.0 <= b < 1.0 {
      assert len as real - b * len as real == (1.0 - b) * len as real;
    }
  }

  /** For a brightness in [0, 1] the index always selects a character of the ramp. */
  lemma OutputIndexInRange(b: real, len: nat)
    requires 0.0 <= b <= 1.0 && 0 < len
    ensures 0 <= OutputIndex(b, len) < len
  {
    if b < 1.0 {
      assert 0.0 <= b * len as real;
    }
  }

  /** A brighter chunk never gets a denser character: the index is monotone. */
  lemma OutputIndexMono(b1: real, b2: real, len: nat)
    requires b1 <= b2
    ensures OutputIndex(b1, len) <= OutputIndex(b2, len)
  {
    var raw1 := (b1 * len as real).Floor;
    var raw2 := (b2 * len as real).Floor;
    assert b1 * len as real <= b2 * len as real by {
      assert b2 * len as real - b1 * len as real == (b2 - b1) * len as real;
    }
    assert raw1 <= raw2;
  }

  /** Black selects the densest glyph '@', white the blank. */
  lemma RampEnds()
    ensures OutputCharSet[OutputIndex(0.0, |OutputCharSet|)] == '@'
    ensures OutputCharSet[OutputIndex(1.0, |OutputCharSet|)] == ' '
  {
    assert |OutputCharSet| == 10;
  }
}
