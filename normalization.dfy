/** Per-channel normalisation of a pixel value with the ImageNet statistics. */
module Normalization {

  /** Per-channel mean and standard deviation, channel order R, G, B. */
  const Mean: seq<real> := [0.485, 0.456, 0.406]
  const Std: seq<real> := [0.229, 0.224, 0.225]

  /** Number of colour channels of a pixel. */
  const Channels: nat := 3

  /** Lowest and highest normalised values of channel `c` for 8-bit input. */
  function Lowest(c: nat): real
    requires c < Channels
  {
    (0.0 - Mean[c]) / Std[c]
  }

  function Highest(c: nat): real
    requires c < Channels
  {
    (1.0 - Mean[c]) / Std[c]
  }

  /** `(v / 255 - mean[c]) / std[c]`, with channel `c`'s own statistics. */
  function NormalizeValue(v: real, c: nat): (z: real)
    requires c < Channels
    ensures 0.0 <= v <= 255.0 ==> Lowest(c) <= z <= Highest(c)
  {
    (v / 255.0 - Mean[c]) / Std[c]
  }

  /** The inverse transform: recovers the 0..255 value from its normalised one. */
  function Denormalize(z: real, c: nat): (v: real)
    requires c < Channels
    ensures NormalizeValue(v, c) == z
  {
    (z * Std[c] + Mean[c]) * 255.0
  }

  /** Normalisation loses nothing: denormalising gives the input back. */
  lemma NormalizeRoundTrip(v: real, c: nat)
    requires c < Channels
    ensures Denormalize(NormalizeValue(v, c), c) == v
  {
  }

  /** Normalisation is strictly increasing, so it keeps the order of intensities. */
  lemma NormalizeMonotone(v1: real, v2: real, c: nat)
    requires c < Channels
    requires v1 < v2
    ensures NormalizeValue(v1, c) < NormalizeValue(v2, c)
  {
  }
}
