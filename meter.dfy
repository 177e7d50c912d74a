/** Samples, frames and the peak level meter of the capture loop. */
module Meter {

  /** A signed 16-bit PCM sample (Rust `i16`). */
  type I16 = x: int | -32768 <= x <= 32767

  const MinI16: I16 := -32768
  const MaxI16: I16 := 32767

  /** One block of samples as read from the input device. */
  type Frame = seq<I16>

  /** `i16::saturating_neg`: negation that maps the most negative value to the most positive. */
  function SatNeg(b: I16): (r: I16)
    ensures b == MinI16 ==> r == MaxI16
    ensures b != MinI16 ==> r == -b
  {
    if b == MinI16 then MaxI16 else -b
  }

  /** Absolute value of a sample, saturating at `MaxI16`. */
  function SatAbs(b: I16): (r: I16)
    ensures 0 <= r
    ensures b > MinI16 ==> r == (if b < 0 then -b else b)
    ensures b == MinI16 ==> r == MaxI16
  {
    if b < 0 then SatNeg(b) else b
  }

  /**
   * The peak level of a frame: the fold of `audio_level`, which starts from 0 and
   * keeps the larger of the accumulator and each sample's saturating absolute value.
   */
  function Level(s: Frame): (r: I16)
    ensures 0 <= r
    ensures forall i :: 0 <= i < |s| ==> SatAbs(s[i]) <= r
    ensures s == [] ==> r == 0
    ensures s != [] ==> exists i :: 0 <= i < |s| && r == SatAbs(s[i])
  {
    if s == [] then 0
    else
      var x, b := Level(s[..|s| - 1]), SatAbs(s[|s| - 1]);
      if x < b then b else x
  }

  /** A frame holding the most negative sample reads as full scale, never as a wrapped negative. */
  lemma MinSampleSaturates(s: Frame, k: nat)
    requires k < |s| && s[k] == MinI16
    ensures Level(s) == MaxI16
  {
    assert SatAbs(s[k]) == MaxI16;
  }

  /** A frame whose samples all lie within `[-bound, bound]` has level at most `bound`. */
  lemma QuietFrame(s: Frame, bound: I16)
    requires 0 <= bound
    requires forall i :: 0 <= i < |s| ==> -bound <= s[i] <= bound
    ensures Level(s) <= bound
  {
    if s != [] {
      var i :| 0 <= i < |s| && Level(s) == SatAbs(s[i]);
    }
  }

  /** `audio_level`: one pass over the buffer with a running maximum. */
  method AudioLevel(buf: Frame) returns (x: I16)
    ensures x == Level(buf)
  {
    x := 0;
    for i := 0 to |buf|
      invariant x == Level(buf[..i])
    {
      var b := buf[i];
      if b < 0 {
        b := SatNeg(b);
      }
      if x < b {
        x := b;
      }
      assert buf[..i + 1][..i] == buf[..i];
    }
    assert buf[..|buf|] == buf;
  }
}
