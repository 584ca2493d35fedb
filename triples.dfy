/** Three-component colour values shared by the parser/formatter and the
    colour-appearance pipeline: an sRGB colour, an XYZ tristimulus value,
    a CIECAM02 (J, C, h) triple and an IPT triple are all three reals. */
module Triples {

  datatype Triple = Triple(c0: real, c1: real, c2: real)

  /** A channel value in the displayable range [0, 1]. */
  predicate InUnit(c: real) {
    0.0 <= c <= 1.0
  }

  /** The colour lies in the sRGB cube [0, 1]^3. */
  predicate InBox(t: Triple) {
    InUnit(t.c0) && InUnit(t.c1) && InUnit(t.c2)
  }

  /** Component-wise multiplication by a scalar. */
  function Scale(t: Triple, k: real): Triple {
    Triple(t.c0 * k, t.c1 * k, t.c2 * k)
  }
}
