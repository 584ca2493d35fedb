# Colour-scheme translation: a verified model

The system re-renders a foreground colour meant for one background so that it
looks the same on another background. Colours arrive as CSS strings. They are
parsed into sRGB channel fractions and converted into CIECAM02 appearance
correlates (lightness J, chroma C, hue h) under the viewing conditions of the
source background. J and C are scaled, and the correlates are converted back
under the destination background. The result is gamut-mapped into the sRGB
cube and written out as a CSS string again.

The model has three modules:

- `Triples` (`triples.dfy`): the three-real colour value shared by both
  halves, the unit cube `InBox`, and component-wise scaling.
- `ColorFormat` (`color_format.dfy`) covers the string half from `app.py`:
  - `parse_hex_color` and `parse_color`, modelled as total functions that
    return a `Result` (a Python `ValueError`/`AttributeError` becomes an
    `Err` with a reason);
  - `color_to_int`, `color_to_decimal` and `color_to_hex`.

  The Python primitives they rest on are written out: `str.strip`,
  `str.split`, `re.search(r'([\d.]+)')`, `float`, `int(x, base=16)`, `round`,
  `%d` and `%02x`.
- `Cam` (`cam.dfy`) covers the pipeline from `cam.py`:
  - `distance`, `gamut_map`, `sRGB_to_JCh`, `JCh_to_sRGB` (with its batch
    loop) and `translate` (with its in-place scaling of the J and C rows).
  - The numerical library calls are a `Library` value of arbitrary functions
    passed in by the caller: gamma-2.2 sRGB↔XYZ, IPT, CIECAM02 forward and
    inverse, and `fmin_l_bfgs_b`. Three things are assumed about them:
    - the bounded optimiser returns a point inside the bounds it is given
      (`Cam.RespectsBounds`); every in-cube result rests on this;
    - the conversions act on a batch colour by colour, which `BatchToJCh`
      and `JChToSRGB` build in by converting each colour of a batch on its
      own;
    - the CIECAM02 and sRGB↔XYZ conversions invert each other exactly; this
      is only a hypothesis of the round trips in `SRGBToJCh`,
      `JChThroughSRGB` and `TranslateIdentity`.

Channels are exact reals. Parsing gives n / 255 exactly, and formatting rounds
c × 255 half-to-even, as Python's `round` does on an exactly representable
value.

Facts about `cam.py` that shape the model:

- The gamut-mapping distance is the squared distance in IPT (cam.py:54-56).
- `gamut_map` takes only the colour (cam.py:59).
- Backgrounds are sRGB colours; only their Y enters the viewing conditions
  (cam.py:92, 115).
- The adapting luminance L_A is 20 (cam.py:91, 114).
- The optimiser's result is returned as is (cam.py:72-73).

## Model

| member | source | states |
|---|---|---|
| ColorFormat.StripLeft | app.py:15 | the result is a suffix of the input; every character removed is in the strip set; the first character kept is not |
| ColorFormat.StripRight | app.py:15 | the result is a prefix of the input; every character removed is in the strip set; the last character kept is not |
| ColorFormat.StripAround | app.py:15 | stripping `p + t + q` gives exactly `t` when `p` and `q` consist of strip characters and `t` neither starts nor ends with one |
| ColorFormat.StripFree | app.py:15 | a text that neither starts nor ends with a strip character is unchanged by stripping |
| ColorFormat.Strip | app.py:15 | `str.strip` (with `'#'` here and with whitespace at app.py:31): never longer than the input, neither end of a non-empty result is a strip character, and text made only of strip characters strips to nothing |
| ColorFormat.Split | app.py:29 | `str.split(',')` gives at least one part and no part contains a comma |
| ColorFormat.SplitSpec | app.py:29 | `split(',')` gives one more part than there are commas, no part contains a comma, and joining the parts with commas gives the input back |
| ColorFormat.SplitNone | app.py:29-31 | a comma-free string splits into the single part itself |
| ColorFormat.SplitThree | app.py:29 | `a,b,c` with comma-free `a`, `b`, `c` splits into exactly `[a, b, c]` |
| ColorFormat.Doubled | app.py:17 | each character is doubled: twice the length, and character i is input character i / 2 |
| ColorFormat.HexBody | app.py:15-17 | the body has six characters exactly when the `#`-stripped text has three or six; a 6-character text is the body itself, and a 3-character text has each character doubled |
| ColorFormat.ParseHexPair | app.py:19-21 | a pair parses exactly when both characters are hex digits; its value is 16·hi + lo, below 256, and `%02x` writes it back as the lower-cased pair |
| ColorFormat.ParseHexBody | app.py:18-22 | a 6-character body parses exactly when all six are hex digits; the value is the three pair values over 255, in the cube and on the byte grid; otherwise a digit error |
| ColorFormat.ParseHexColor | app.py:13-24 | a length error exactly when the `#`-stripped text is neither 3 nor 6 long; success exactly when the (doubled) body is six hex digits; a successful result is in the cube and on the byte grid, and is the body's reading |
| ColorFormat.ShortHexIsDoubled | app.py:16-17 | `#abc` parses exactly as `#aabbcc` |
| ColorFormat.TakeRun | app.py:34 | the longest prefix of digits and dots: a prefix, all run characters, and followed by the end or a non-run character |
| ColorFormat.FirstRun | app.py:34 | no match exactly when the text contains no digit or dot; a match is a non-empty run of digits and dots |
| ColorFormat.FirstRunOfAffixes | app.py:34 | the search finds the leftmost run and takes it whole: `p + run + q` with `p` free of run characters and `q` not starting with one yields `run` |
| ColorFormat.ParseDecimalRun | app.py:34 | `float` on a run succeeds exactly when it has at most one dot and at least one digit; the value is never negative; an all-digit run reads as its decimal value |
| ColorFormat.ReadDotted | app.py:34 | a run split at its first dot reads exactly when the rest holds no dot and some digit exists; the value is never negative |
| ColorFormat.ParseDottedRun | app.py:34 | `whole.frac` with digit strings reads as whole + frac / 10^len(frac) |
| ColorFormat.DecimalChannel | app.py:34 | a no-number error exactly when the part holds no digit or dot; a successful channel is non-negative |
| ColorFormat.DecimalChannelOfRun | app.py:34 | a part with one run of digits and dots between non-number text is `float` of that run over 255, or a bad-number error when `float` rejects the run (as for `1.2.3`) |
| ColorFormat.DecimalChannelOfDigits | app.py:34 | a part with one decimal integer n between non-number text reads as n / 255 |
| ColorFormat.ParseColor | app.py:27-34 | comma-free text is stripped of whitespace and read as hex; a split of neither 1 nor 3 parts is an arity error; with 3 parts the result succeeds exactly when all three channels do, and is their triple |
| ColorFormat.CommasDecideForm | app.py:29-33 | no comma means the hex form; a comma count other than 0 or 2 is an arity error; two commas means three parts |
| ColorFormat.RoundHalfEven | app.py:39 | the result is within 1/2 of the input, and a tie goes to the even integer |
| ColorFormat.RoundMonotone | app.py:39 | rounding is monotone |
| ColorFormat.RoundOfIntegral | app.py:39 | an integer rounds to itself |
| ColorFormat.ToLevel | app.py:39 | a channel in [0, 1] gives a level in 0..255, and the level is within 1/2 of c × 255 |
| ColorFormat.ToLevelOfLevel | app.py:19-21 | the level n / 255 converts back to exactly n |
| ColorFormat.ColorToInt | app.py:37-39 | for a colour in the cube all three levels are in 0..255; each level is within 1/2 of its channel × 255 |
| ColorFormat.DecimalDigits | app.py:44 | `%d` of a non-negative integer: non-empty digits, no leading zero, reading back as the number |
| ColorFormat.FormatInt | app.py:44 | `%d` output has no comma; for a non-negative number it is digits spelling the number, and for a negative one a `-` followed by digits spelling its magnitude |
| ColorFormat.HexDigits | app.py:49 | lower-case base-16 digits with no leading zero that spell the number in base 16, one digit exactly when the number is below 16 |
| ColorFormat.Hex02 | app.py:49 | `%02x` of 0..255 is exactly two lower-case digits, high then low |
| ColorFormat.FormatDecimal | app.py:44 | `'rgb(%d, %d, %d)'` starts with `rgb(`, ends with `)`, holds exactly two commas, and so splits at commas into three parts |
| ColorFormat.ColorToDecimal | app.py:42-44 | the text starts with `rgb(`, ends with `)`, and holds exactly two commas |
| ColorFormat.DecimalTextShape | app.py:44 | `rgb(d0, d1, d2)` with comma-free numbers starts with `rgb(`, ends with `)`, and holds exactly two commas |
| ColorFormat.SplitDecimalShape | app.py:29 | `rgb(d0, d1, d2)` splits into `rgb(d0`, ` d1`, ` d2)` |
| ColorFormat.ColorToHex | app.py:47-49 | for a colour in the cube: `#` and six lower-case hex digits, whose pairs read back as the three `color_to_int` levels |
| ColorFormat.LevelsToHex | app.py:47-49 | levels written as hex are `#` and the three `%02x` pairs |
| ColorFormat.HexRoundTrip | app.py:13-49 | parsed hex text written again is `#` and the lower-cased 6-digit (doubled) body |
| ColorFormat.HexFormatParses | app.py:13-49 | hex text written for a colour in the cube parses back to the colour snapped to its levels |
| ColorFormat.HexLevelsRoundTrip | app.py:13-49 | byte levels written as hex parse back to the same levels |
| ColorFormat.ParseDecimalText | app.py:27-44 | `rgb(r, g, b)` written by `%d` parses to the levels r, g, b over 255 |
| ColorFormat.FormatLevels | app.py:37-44 | levels n / 255 are written back as the integers n |
| ColorFormat.DecimalRoundTrip | app.py:27-44 | decimal text read and written again is the same text |
| ColorFormat.DecimalFormatParses | app.py:27-44 | decimal text written for a colour in the cube parses back to the colour snapped to its levels |
| Cam.UnitBoundsAreTheBox | cam.py:72 | the bounds `[(0, 1)] * 3` are well formed, and a point satisfies them exactly when it is in the cube |
| Cam.ClipUnit | cam.py:68 | the clipped component lies in [0, 1], is unchanged when already there, and is the nearest point of [0, 1] |
| Cam.Clip | cam.py:68 | the clipped colour is in the cube, and equals the input exactly when the input was in the cube |
| Cam.ClipIdempotent | cam.py:68 | clipping twice is clipping once |
| Cam.Squared | cam.py:56 | a square is never negative, and is zero exactly at zero |
| Cam.Distance | cam.py:44-56 | the sum of the squared differences of the two colours' `IPT` images is never negative, and is zero exactly when the two images coincide |
| Cam.DistanceSymmetric | cam.py:44-56 | the distance is symmetric |
| Cam.DistanceToSelf | cam.py:44-56 | a colour is at distance zero from itself |
| Cam.GamutMap | cam.py:59-73 | a colour in the cube comes back unchanged; any other colour goes to the optimiser, which minimises `Loss`, i.e. `Distance(lib, rgb, ·)`, started from the clipped colour with bounds `[(0, 1)] * 3`; under the optimiser's bounding contract the result is in the cube |
| Cam.GamutMapIdempotent | cam.py:59-73 | under the bounding contract, mapping a mapped colour again changes nothing |
| Cam.ConditionsFor | cam.py:90-94 | the viewing conditions both conversions derive: L_A is 20 for every background, and Y_b equals the white point's Y exactly when the background's Y equals that of white |
| Cam.ConditionsDependOnLuminance | cam.py:92 | two backgrounds give the same `ConditionsFor` viewing conditions exactly when their Y values agree |
| Cam.SRGBToJCh | cam.py:76-95 | if the library's conversions invert each other exactly, `JChToRawSRGB` under the same background and surround takes the correlates back to the colour |
| Cam.JChThroughSRGB | cam.py:112-119 | `JChToRawSRGB`, the conversion `JCh_to_sRGB` makes before gamut mapping, followed by `SRGBToJCh` under the same background gives the correlates back when the library's conversions invert each other exactly the other way round |
| Cam.BackgroundThroughLuminance | cam.py:89-118 | two backgrounds with the same Y give the same `SRGBToJCh` and the same `JChToRawSRGB` for every colour |
| Cam.JChToSRGB | cam.py:98-125 | one colour in gives one colour out; a batch gives a batch of the same length whose row i is the converted, gamut-mapped row i; under the bounding contract every output colour is in the cube |
| Cam.ScaleJCKeepsHue | cam.py:143-144 | `ScaleJC`, the scaling of J and C, keeps the hue, and factors 1 change nothing |
| Cam.ScaleColorInPlace | cam.py:143-144 | in the single colour's array J is multiplied by the J factor and C by the C factor, while h is kept |
| Cam.ScaleRowsInPlace | cam.py:143-144 | in the 3 × n batch array every J entry is multiplied by the J factor, every C entry by the C factor, and the h row is kept |
| Cam.BatchToJCh | cam.py:76-95 | a fresh 3 × n array whose column i is the correlates of colour i |
| Cam.TranslateColor | cam.py:142-145 | one colour's translation: under the bounding contract it is in the cube, and with both factors 1 the forward correlates pass to the inverse conversion unchanged |
| Cam.Translate | cam.py:128-145 | shape is kept; every output colour is its input colour converted under the source background, J and C scaled, converted back under the destination background, and gamut-mapped; under the bounding contract the output is in the cube |
| Cam.TranslateIdentity | cam.py:128-145 | with exactly inverse library conversions, translating between equal backgrounds with factors 1 is the gamut map, so it is the identity on colours in the cube |

## Left out

- Floating point: channels, the division by 255, `c * 255` before rounding, and
  every library computation are exact reals. Float rounding, overflow and NaN
  are not modelled. That includes how NaN behaves in `gamut_map`'s
  `(RGB == x).all()` test.
- ColorFormat.ParseHexPair: accepts only the ASCII characters `0-9a-fA-F`.
  Python's `int(s, base=16)` also takes a sign, surrounding whitespace, an
  underscore between digits and non-ASCII digits. Text such as `#-1-1-1` is
  therefore a digit error here but negative channels in Python.
- ColorFormat.FirstRun: `\d` is taken as the ASCII digits only; Python's
  `re` also matches other Unicode decimal digits.
- ColorFormat.ParseColor: the decimal form's error kinds (`NoNumber`,
  `BadNumber`) stand for Python's `AttributeError` on a failed search and
  `ValueError` from `float`. They are not exception types.
- The library internals behind `Cam.Library` are not modelled: the gamma-2.2
  sRGB↔XYZ conversions (cam.py:16-41), `colour.XYZ_to_IPT`, the CIECAM02
  forward and inverse conversions, and scipy's `fmin_l_bfgs_b`.
- Cam.GamutMap: the source intends the nearest in-gamut colour. The model
  states only that the optimiser's result is in the cube. Optimality is not
  claimed, because the optimiser is abstract and, on a non-convex loss, only
  locally optimal.
- Surround names: the lookup of a surround name in the CIECAM02
  viewing-condition table (cam.py:93-94, 116-117) is not modelled; the
  conversions take a `Surround` value directly, and `translate` passes
  `Average`.
- Array shapes: numpy arrays are either one colour or a sequence of colours
  (`Cam.ColorArray`), and higher-dimensional inputs are not modelled.
  `JChToSRGB` takes a batch as a sequence of JCh triples rather than numpy's
  3 × n array. `Translate` does build the 3 × n array and scales its J and C
  rows in place. The library conversions are assumed to act on a batch colour
  by colour.
- Cam.Translate: `translate`'s default factors `J_factor=1, C_factor=1`
  (cam.py:128) are not modelled; a caller passes both factors, and the
  unit-factor case is stated by `Cam.TranslateColor` and
  `Cam.TranslateIdentity`.
- The Flask routes and templates, the command-line tool, the benchmarks and the
  gunicorn configuration are not part of this model.
