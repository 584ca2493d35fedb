/** The colour-appearance pipeline: sRGB foreground colours are converted to
    CIECAM02 (J, C, h) under the viewing conditions of one background, J and C
    are scaled, and the result is converted back under another background
    and gamut-mapped into the sRGB cube.

    The numerical library code the pipeline calls (the gamma-2.2 sRGB/XYZ
    conversions, IPT, CIECAM02 forward and inverse, and the bounded L-BFGS-B
    optimiser) is not modelled: it is a `Library` value of arbitrary
    functions passed in by the caller, and three things are assumed of it:
    - the optimiser returns a point inside the bounds it is given
      (`RespectsBounds`), for the in-cube results;
    - the conversions act on a batch colour by colour, so a batch is
      modelled as a sequence of single-colour conversions;
    - the CIECAM02 and sRGB/XYZ conversions invert each other exactly, only
      as the stated precondition of the round-trip lemmas. */
module Cam {
  import opened Triples

  /** The surround categories of the CIECAM02 viewing-condition table. */
  datatype Surround = Average | Dim | Dark

  /** The arguments the CIECAM02 conversions take besides the colour:
      white point XYZ_w, adapting luminance L_A, background luminance Y_b
      and the surround. */
  datatype ViewingConditions = ViewingConditions(
    whitePoint: Triple, adaptingLuminance: real, backgroundLuminance: real, surround: Surround)

  /** A (lower, upper) bound on one coordinate, as the optimiser takes it. */
  type Bound = (real, real)

  /** The numerical library functions the pipeline calls. */
  datatype Library = Library(
    sRGBToXYZ: Triple -> Triple,                            // gamma 2.2 decode, then sRGB matrix
    xyzToSRGB: Triple -> Triple,                            // inverse matrix, then gamma 2.2 encode
    xyzToIPT: Triple -> Triple,
    xyzToCIECAM02: (Triple, ViewingConditions) -> Triple,   // the (J, C, h) correlates
    ciecam02ToXYZ: (Triple, ViewingConditions) -> Triple,
    fminLBFGSB: (Triple -> real, Triple, seq<Bound>) -> Triple)  // (loss, start, bounds) |-> optimum

  predicate WellFormedBounds(bounds: seq<Bound>) {
    |bounds| == 3 && forall i :: 0 <= i < 3 ==> bounds[i].0 <= bounds[i].1
  }

  predicate WithinBounds(x: Triple, bounds: seq<Bound>)
    requires |bounds| == 3
  {
    && bounds[0].0 <= x.c0 <= bounds[0].1
    && bounds[1].0 <= x.c1 <= bounds[1].1
    && bounds[2].0 <= x.c2 <= bounds[2].1
  }

  /** The bounding contract of a box-constrained optimiser: whatever the
      loss and the starting point, the point returned satisfies the bounds. */
  ghost predicate RespectsBounds(solve: (Triple -> real, Triple, seq<Bound>) -> Triple) {
    forall loss, x0, bounds :: WellFormedBounds(bounds) ==> WithinBounds(solve(loss, x0, bounds), bounds)
  }

  /** `[(0, 1)] * 3`. */
  const UnitBounds: seq<Bound> := [(0.0, 1.0), (0.0, 1.0), (0.0, 1.0)]

  lemma UnitBoundsAreTheBox(x: Triple)
    ensures WellFormedBounds(UnitBounds)
    ensures WithinBounds(x, UnitBounds) <==> InBox(x)
  {
  }

  const White: Triple := Triple(1.0, 1.0, 1.0)

  // ------------------------------------------------------------------
  // distance, gamut_map
  // ------------------------------------------------------------------

  function Abs(x: real): real {
    if x < 0.0 then -x else x
  }

  /** `np.clip(c, 0, 1)` on one component: the point of [0, 1] nearest to `c`. */
  function ClipUnit(c: real): (r: real)
    ensures InUnit(r)
    ensures InUnit(c) ==> r == c
    ensures forall y :: InUnit(y) ==> Abs(r - c) <= Abs(y - c)
  {
    if c < 0.0 then 0.0 else if c > 1.0 then 1.0 else c
  }

  /** `np.clip(rgb, 0, 1)`: lands in the cube, and leaves a colour alone
      exactly when it is already in the cube. */
  function Clip(rgb: Triple): (r: Triple)
    ensures InBox(r)
    ensures r == rgb <==> InBox(rgb)
  {
    Triple(ClipUnit(rgb.c0), ClipUnit(rgb.c1), ClipUnit(rgb.c2))
  }

  /** Clipping twice is clipping once. */
  lemma ClipIdempotent(rgb: Triple)
    ensures Clip(Clip(rgb)) == Clip(rgb)
  {
  }

  /** The IPT coordinates of an sRGB colour. */
  function IPT(lib: Library, rgb: Triple): Triple {
    lib.xyzToIPT(lib.sRGBToXYZ(rgb))
  }

  /** The product a * b behind a name of its own: the solver rewrites facts
      about `x * x` into facts about `x` and then loses their link to the
      square, so `Squared` reasons about `Product(x, x)` instead. */
  function Product(a: real, b: real): real {
    a * b
  }

  lemma ProductPositive(a: real, b: real)
    requires a > 0.0 && b > 0.0
    ensures Product(a, b) > 0.0
  {
  }

  lemma ProductOfNegations(a: real, b: real)
    ensures Product(-a, -b) == Product(a, b)
  {
  }

  /** The square of a real: never negative, and zero only at zero. */
  function Squared(x: real): (r: real)
    ensures r >= 0.0
    ensures r == 0.0 <==> x == 0.0
  {
    if x > 0.0 then
      ProductPositive(x, x);
      Product(x, x)
    else if x < 0.0 then
      ProductPositive(-x, -x);
      ProductOfNegations(x, x);
      Product(x, x)
    else
      Product(x, x)
  }

  /** `distance`: the sum of squared differences of the IPT images. It is
      never negative and is zero exactly when the two images coincide. */
  function Distance(lib: Library, rgb1: Triple, rgb2: Triple): (d: real)
    ensures d >= 0.0
    ensures d == 0.0 <==> IPT(lib, rgb1) == IPT(lib, rgb2)
  {
    var p, q := IPT(lib, rgb1), IPT(lib, rgb2);
    Squared(p.c0 - q.c0) + Squared(p.c1 - q.c1) + Squared(p.c2 - q.c2)
  }

  lemma DistanceSymmetric(lib: Library, rgb1: Triple, rgb2: Triple)
    ensures Distance(lib, rgb1, rgb2) == Distance(lib, rgb2, rgb1)
  {
  }

  lemma DistanceToSelf(lib: Library, rgb: Triple)
    ensures Distance(lib, rgb, rgb) == 0.0
  {
  }

  /** `partial(distance, rgb)`: the loss the optimiser minimises. */
  function Loss(lib: Library, rgb: Triple): Triple -> real {
    x => Distance(lib, rgb, x)
  }

  /** `gamut_map`. A colour already in the cube comes back unchanged; any
      other colour is handed to the optimiser, which is started from the
      clipped colour and bounded to the cube. Under the optimiser's bounding
      contract the result always lies in the cube. */
  function GamutMap(lib: Library, rgb: Triple): (r: Triple)
    ensures InBox(rgb) ==> r == rgb
    ensures !InBox(rgb) ==> r == lib.fminLBFGSB(Loss(lib, rgb), Clip(rgb), UnitBounds)
    ensures RespectsBounds(lib.fminLBFGSB) ==> InBox(r)
  {
    var x := Clip(rgb);
    if rgb == x then x
    else
      UnitBoundsAreTheBox(lib.fminLBFGSB(Loss(lib, rgb), x, UnitBounds));
      lib.fminLBFGSB(Loss(lib, rgb), x, UnitBounds)
  }

  /** Mapping a mapped colour again changes nothing. */
  lemma GamutMapIdempotent(lib: Library, rgb: Triple)
    requires RespectsBounds(lib.fminLBFGSB)
    ensures GamutMap(lib, GamutMap(lib, rgb)) == GamutMap(lib, rgb)
  {
  }

  // ------------------------------------------------------------------
  // sRGB_to_JCh, JCh_to_sRGB, translate
  // ------------------------------------------------------------------

  /** The viewing conditions both conversions derive from a background
      colour: the white point is sRGB white scaled to 100, L_A = 20, and Y_b
      is the background's luminance Y scaled to 100. */
  function ConditionsFor(lib: Library, bg: Triple, surround: Surround): (vc: ViewingConditions)
    ensures vc.adaptingLuminance == 20.0
    ensures vc.backgroundLuminance == vc.whitePoint.c1 <==> lib.sRGBToXYZ(bg).c1 == lib.sRGBToXYZ(White).c1
  {
    ViewingConditions(Scale(lib.sRGBToXYZ(White), 100.0), 20.0, lib.sRGBToXYZ(bg).c1 * 100.0, surround)
  }

  /** Two backgrounds give the same viewing conditions exactly when they have
      the same luminance: nothing else about the background matters. */
  lemma ConditionsDependOnLuminance(lib: Library, bg1: Triple, bg2: Triple, surround: Surround)
    ensures (ConditionsFor(lib, bg1, surround) == ConditionsFor(lib, bg2, surround))
            <==> (lib.sRGBToXYZ(bg1).c1 == lib.sRGBToXYZ(bg2).c1)
  {
    var y1, y2 := lib.sRGBToXYZ(bg1).c1, lib.sRGBToXYZ(bg2).c1;
    if y1 * 100.0 == y2 * 100.0 {
      assert y1 == y2;
    }
  }

  /** `sRGB_to_JCh` for one colour: XYZ scaled to 100, then CIECAM02. If the
      library's conversions invert each other exactly, converting back under
      the same background gives the colour back. */
  function SRGBToJCh(lib: Library, rgb: Triple, bg: Triple, surround: Surround): (jch: Triple)
    ensures (forall x, vc :: lib.ciecam02ToXYZ(lib.xyzToCIECAM02(x, vc), vc) == x)
            && (forall x :: lib.xyzToSRGB(lib.sRGBToXYZ(x)) == x)
            ==> JChToRawSRGB(lib, jch, bg, surround) == rgb
  {
    assert Scale(Scale(lib.sRGBToXYZ(rgb), 100.0), 1.0 / 100.0) == lib.sRGBToXYZ(rgb);
    lib.xyzToCIECAM02(Scale(lib.sRGBToXYZ(rgb), 100.0), ConditionsFor(lib, bg, surround))
  }

  /** The conversion `JCh_to_sRGB` makes before gamut mapping: inverse
      CIECAM02, XYZ divided by 100, then sRGB. */
  function JChToRawSRGB(lib: Library, jch: Triple, bg: Triple, surround: Surround): Triple {
    lib.xyzToSRGB(Scale(lib.ciecam02ToXYZ(jch, ConditionsFor(lib, bg, surround)), 1.0 / 100.0))
  }

  /** If the library's conversions invert each other exactly the other way
      round, converting correlates to sRGB and back under the same background
      gives the correlates back. */
  lemma JChThroughSRGB(lib: Library, jch: Triple, bg: Triple, surround: Surround)
    requires forall x, vc :: lib.xyzToCIECAM02(lib.ciecam02ToXYZ(x, vc), vc) == x
    requires forall x :: lib.sRGBToXYZ(lib.xyzToSRGB(x)) == x
    ensures SRGBToJCh(lib, JChToRawSRGB(lib, jch, bg, surround), bg, surround) == jch
  {
    var xyz := lib.ciecam02ToXYZ(jch, ConditionsFor(lib, bg, surround));
    assert Scale(Scale(xyz, 1.0 / 100.0), 100.0) == xyz;
  }

  /** Both conversions see the background only through its luminance Y. */
  lemma BackgroundThroughLuminance(lib: Library, bg1: Triple, bg2: Triple, surround: Surround)
    requires lib.sRGBToXYZ(bg1).c1 == lib.sRGBToXYZ(bg2).c1
    ensures forall rgb :: SRGBToJCh(lib, rgb, bg1, surround) == SRGBToJCh(lib, rgb, bg2, surround)
    ensures forall jch :: JChToRawSRGB(lib, jch, bg1, surround) == JChToRawSRGB(lib, jch, bg2, surround)
  {
    ConditionsDependOnLuminance(lib, bg1, bg2, surround);
  }

  /** A colour array as numpy holds it: one colour (1-D) or rows of colours (2-D). */
  datatype ColorArray = Vector(color: Triple) | Matrix(rows: seq<Triple>)

  predicate AllInBox(a: ColorArray) {
    match a
    case Vector(c) => InBox(c)
    case Matrix(rows) => forall i :: 0 <= i < |rows| ==> InBox(rows[i])
  }

  /** `JCh_to_sRGB`. A single colour is converted and gamut-mapped; a batch
      is converted, then gamut-mapped row by row into a fresh array of the
      same number of rows, row i depending on input row i alone. */
  method JChToSRGB(lib: Library, jch: ColorArray, bg: Triple, surround: Surround) returns (rgb: ColorArray)
    ensures rgb.Vector? <==> jch.Vector?
    ensures jch.Vector? ==> rgb.color == GamutMap(lib, JChToRawSRGB(lib, jch.color, bg, surround))
    ensures jch.Matrix? ==>
              && |rgb.rows| == |jch.rows|
              && forall i :: 0 <= i < |jch.rows| ==>
                   rgb.rows[i] == GamutMap(lib, JChToRawSRGB(lib, jch.rows[i], bg, surround))
    ensures RespectsBounds(lib.fminLBFGSB) ==> AllInBox(rgb)
  {
    match jch
    case Vector(c) =>
      rgb := Vector(GamutMap(lib, JChToRawSRGB(lib, c, bg, surround)));
    case Matrix(rows) =>
      var raw := seq(|rows|, i requires 0 <= i < |rows| => JChToRawSRGB(lib, rows[i], bg, surround));
      var inGamut := new Triple[|raw|];
      for i := 0 to |raw|
        invariant forall k :: 0 <= k < i ==> inGamut[k] == GamutMap(lib, raw[k])
      {
        inGamut[i] := GamutMap(lib, raw[i]);
      }
      rgb := Matrix(inGamut[..]);
  }

  /** `JCh[0] *= J_factor; JCh[1] *= C_factor` on one colour's correlates. */
  function ScaleJC(jch: Triple, jFactor: real, cFactor: real): Triple {
    Triple(jch.c0 * jFactor, jch.c1 * cFactor, jch.c2)
  }

  /** Scaling leaves the hue alone, and unit factors change nothing. */
  lemma ScaleJCKeepsHue(jch: Triple, jFactor: real, cFactor: real)
    ensures ScaleJC(jch, jFactor, cFactor).c2 == jch.c2
    ensures ScaleJC(jch, 1.0, 1.0) == jch
  {
  }

  /** What `translate` computes for one foreground colour. It lies in the
      cube under the optimiser's bounding contract, and with both factors 1
      the forward correlates pass to the inverse conversion unchanged. */
  function TranslateColor(lib: Library, fg: Triple, bgSrc: Triple, bgDst: Triple,
                          jFactor: real, cFactor: real): (rgb: Triple)
    ensures RespectsBounds(lib.fminLBFGSB) ==> InBox(rgb)
    ensures jFactor == 1.0 && cFactor == 1.0 ==>
              rgb == GamutMap(lib, JChToRawSRGB(lib, SRGBToJCh(lib, fg, bgSrc, Average), bgDst, Average))
  {
    ScaleJCKeepsHue(SRGBToJCh(lib, fg, bgSrc, Average), jFactor, cFactor);
    var jch := ScaleJC(SRGBToJCh(lib, fg, bgSrc, Average), jFactor, cFactor);
    GamutMap(lib, JChToRawSRGB(lib, jch, bgDst, Average))
  }

  function Component(t: Triple, k: nat): real {
    if k == 0 then t.c0 else if k == 1 then t.c1 else t.c2
  }

  /** `JCh[0] *= J_factor; JCh[1] *= C_factor` on a single colour's array. */
  method ScaleColorInPlace(jch: array<real>, jFactor: real, cFactor: real)
    requires jch.Length == 3
    modifies jch
    ensures jch[0] == old(jch[0]) * jFactor
    ensures jch[1] == old(jch[1]) * cFactor
    ensures jch[2] == old(jch[2])
  {
    jch[0] := jch[0] * jFactor;
    jch[1] := jch[1] * cFactor;
  }

  /** `JCh[0] *= J_factor; JCh[1] *= C_factor` on a batch laid out 3 x n:
      the whole J row and the whole C row are scaled, the h row is kept. */
  method ScaleRowsInPlace(jch: array2<real>, jFactor: real, cFactor: real)
    requires jch.Length0 == 3
    modifies jch
    ensures forall i :: 0 <= i < jch.Length1 ==>
              && jch[0, i] == old(jch[0, i]) * jFactor
              && jch[1, i] == old(jch[1, i]) * cFactor
              && jch[2, i] == old(jch[2, i])
  {
    forall i | 0 <= i < jch.Length1 {
      jch[0, i] := jch[0, i] * jFactor;
    }
    forall i | 0 <= i < jch.Length1 {
      jch[1, i] := jch[1, i] * cFactor;
    }
  }

  /** `sRGB_to_JCh` on a batch: the correlates of colour i in column i. */
  method BatchToJCh(lib: Library, rows: seq<Triple>, bg: Triple, surround: Surround)
    returns (jch: array2<real>)
    ensures fresh(jch)
    ensures jch.Length0 == 3 && jch.Length1 == |rows|
    ensures forall i :: 0 <= i < |rows| ==>
              Triple(jch[0, i], jch[1, i], jch[2, i]) == SRGBToJCh(lib, rows[i], bg, surround)
  {
    jch := new real[3, |rows|]((k, i) requires 0 <= k < 3 && 0 <= i < |rows| =>
                                 Component(SRGBToJCh(lib, rows[i], bg, surround), k));
  }

  /** `translate`. The forward conversion's J and C are scaled in place in
      the JCh array (for a batch, the whole J row and the whole C row) and
      the array is converted back under the destination background; every
      colour is translated on its own. */
  method Translate(lib: Library, fg: ColorArray, bgSrc: Triple, bgDst: Triple,
                   jFactor: real, cFactor: real) returns (rgb: ColorArray)
    ensures rgb.Vector? <==> fg.Vector?
    ensures fg.Vector? ==> rgb.color == TranslateColor(lib, fg.color, bgSrc, bgDst, jFactor, cFactor)
    ensures fg.Matrix? ==>
              && |rgb.rows| == |fg.rows|
              && forall i :: 0 <= i < |fg.rows| ==>
                   rgb.rows[i] == TranslateColor(lib, fg.rows[i], bgSrc, bgDst, jFactor, cFactor)
    ensures RespectsBounds(lib.fminLBFGSB) ==> AllInBox(rgb)
  {
    match fg
    case Vector(c) =>
      var f := SRGBToJCh(lib, c, bgSrc, Average);
      var jch := new real[3][f.c0, f.c1, f.c2];
      assert jch[..] == [f.c0, f.c1, f.c2];
      ScaleColorInPlace(jch, jFactor, cFactor);
      assert Triple(jch[0], jch[1], jch[2]) == ScaleJC(f, jFactor, cFactor);
      rgb := JChToSRGB(lib, Vector(Triple(jch[0], jch[1], jch[2])), bgDst, Average);
    case Matrix(rows) =>
      var jch := BatchToJCh(lib, rows, bgSrc, Average);
      ScaleRowsInPlace(jch, jFactor, cFactor);
      var scaled := seq(|rows|, i requires 0 <= i < |rows| reads jch => Triple(jch[0, i], jch[1, i], jch[2, i]));
      assert forall i :: 0 <= i < |rows| ==>
               scaled[i] == ScaleJC(SRGBToJCh(lib, rows[i], bgSrc, Average), jFactor, cFactor);
      rgb := JChToSRGB(lib, Matrix(scaled), bgDst, Average);
  }

  /** If the library's conversions invert each other exactly, translating
      between equal backgrounds with unit factors is the gamut map, and so
      the identity on colours in the cube. */
  lemma TranslateIdentity(lib: Library, fg: Triple, bg: Triple)
    requires forall x, vc :: lib.ciecam02ToXYZ(lib.xyzToCIECAM02(x, vc), vc) == x
    requires forall x :: lib.xyzToSRGB(lib.sRGBToXYZ(x)) == x
    ensures TranslateColor(lib, fg, bg, bg, 1.0, 1.0) == GamutMap(lib, fg)
    ensures InBox(fg) ==> TranslateColor(lib, fg, bg, bg, 1.0, 1.0) == fg
  {
  }
}
