/** Reading and writing colour strings: the CSS hex forms `#rgb` and
    `#rrggbb`, the CSS decimal form `rgb(r, g, b)`, and the conversion of a
    triple of channel fractions back to integers 0..255.

    Channels are exact reals: the parser yields n / 255 exactly, and the
    formatter applies round-half-to-even to c * 255 exactly. */
module ColorFormat {
  import opened Triples

  /** The ways parsing can fail. */
  datatype Error =
    | HexLength     // the hex body is neither 3 nor 6 characters long
    | HexDigit      // a two-character pair is not a base-16 number
    | DecimalArity  // the comma split has neither 1 nor 3 parts
    | NoNumber      // a decimal part holds no run of digits and dots
    | BadNumber     // the run found is not a decimal number (e.g. "1.2.3", ".")

  datatype Result<T> = Ok(value: T) | Err(error: Error)

  datatype Option<T> = None | Some(value: T)

  // ------------------------------------------------------------------
  // Character classes
  // ------------------------------------------------------------------

  predicate IsDigit(c: char) {
    '0' <= c <= '9'
  }

  predicate IsHexDigit(c: char) {
    IsDigit(c) || 'a' <= c <= 'f' || 'A' <= c <= 'F'
  }

  predicate IsLowerHexDigit(c: char) {
    IsDigit(c) || 'a' <= c <= 'f'
  }

  /** The characters of the regular expression class `[\d.]`, ASCII digits only. */
  predicate IsRunChar(c: char) {
    IsDigit(c) || c == '.'
  }

  /** The characters that Python's argument-less `str.strip()` removes. */
  const Whitespace: set<char> :=
    {'\t', '\n', '\U{0B}', '\U{0C}', '\r', '\U{1C}', '\U{1D}', '\U{1E}', '\U{1F}', ' ',
     '\U{85}', '\U{A0}', '\U{1680}', '\U{2000}', '\U{2001}', '\U{2002}', '\U{2003}',
     '\U{2004}', '\U{2005}', '\U{2006}', '\U{2007}', '\U{2008}', '\U{2009}', '\U{200A}',
     '\U{2028}', '\U{2029}', '\U{202F}', '\U{205F}', '\U{3000}'}

  const HexMark: set<char> := {'#'}

  function ToLower(c: char): char {
    if 'A' <= c <= 'Z' then (c as int + 32) as char else c
  }

  function Lowered(s: string): (r: string)
    ensures |r| == |s| && forall i :: 0 <= i < |s| ==> r[i] == ToLower(s[i])
  {
    seq(|s|, i requires 0 <= i < |s| => ToLower(s[i]))
  }

  // ------------------------------------------------------------------
  // str.strip, str.split
  // ------------------------------------------------------------------

  /** `s.lstrip(cs)`: the suffix left after dropping every leading character in `cs`. */
  function StripLeft(s: string, cs: set<char>): (r: string)
    ensures |r| <= |s| && r == s[|s| - |r|..]
    ensures forall k :: 0 <= k < |s| - |r| ==> s[k] in cs
    ensures r != [] ==> r[0] !in cs
  {
    if s != [] && s[0] in cs then
      var r := StripLeft(s[1..], cs);
      assert s[|s| - |r|..] == s[1..][|s| - 1 - |r|..];
      assert forall k :: 1 <= k < |s| - |r| ==> s[k] == s[1..][k - 1];
      r
    else s
  }

  /** `s.rstrip(cs)`: the prefix left after dropping every trailing character in `cs`. */
  function StripRight(s: string, cs: set<char>): (r: string)
    ensures |r| <= |s| && r == s[..|r|]
    ensures forall k :: |r| <= k < |s| ==> s[k] in cs
    ensures r != [] ==> r[|r| - 1] !in cs
  {
    if s != [] && s[|s| - 1] in cs then
      var r := StripRight(s[..|s| - 1], cs);
      assert s[..|s| - 1][..|r|] == s[..|r|];
      r
    else s
  }

  /** `s.strip(cs)`: both ends. */
  function Strip(s: string, cs: set<char>): (r: string)
    ensures |r| <= |s|
    ensures r != [] ==> r[0] !in cs && r[|r| - 1] !in cs
    ensures (forall k :: 0 <= k < |s| ==> s[k] in cs) ==> r == []
  {
    var u := StripLeft(s, cs);
    assert (forall k :: 0 <= k < |s| ==> s[k] in cs) ==> u == [] by {
      if u != [] {
        assert u[0] == s[|s| - |u|];
      }
    }
    StripRight(u, cs)
  }

  /** Stripping removes exactly a leading and a trailing stretch of characters in `cs`. */
  lemma {:induction false} StripAround(p: string, t: string, q: string, cs: set<char>)
    requires forall k :: 0 <= k < |p| ==> p[k] in cs
    requires forall k :: 0 <= k < |q| ==> q[k] in cs
    requires t != [] ==> t[0] !in cs && t[|t| - 1] !in cs
    ensures Strip(p + t + q, cs) == t
  {
    if t == [] {
      assert p + t + q == p + q;
      LeftOfAffixes(p, q, cs);
    } else {
      assert p + t + q == p + (t + q);
      LeftOfAffixes(p, t + q, cs);
      RightOfAffixes(t, q, cs);
    }
  }

  lemma {:induction false} LeftOfAffixes(p: string, u: string, cs: set<char>)
    requires forall k :: 0 <= k < |p| ==> p[k] in cs
    requires u != [] ==> u[0] !in cs || (forall k :: 0 <= k < |u| ==> u[k] in cs)
    ensures StripLeft(p + u, cs) == if u != [] && u[0] !in cs then u else []
  {
    if p == [] {
      assert p + u == u;
      if u != [] && u[0] in cs {
        AllStripped(u, cs);
      }
    } else {
      assert (p + u)[1..] == p[1..] + u;
      LeftOfAffixes(p[1..], u, cs);
    }
  }

  lemma {:induction false} AllStripped(u: string, cs: set<char>)
    requires forall k :: 0 <= k < |u| ==> u[k] in cs
    ensures StripLeft(u, cs) == []
  {
    if u != [] {
      AllStripped(u[1..], cs);
    }
  }

  lemma {:induction false} RightOfAffixes(t: string, q: string, cs: set<char>)
    requires forall k :: 0 <= k < |q| ==> q[k] in cs
    requires t != [] ==> t[|t| - 1] !in cs
    ensures StripRight(t + q, cs) == t
  {
    if q == [] {
      assert t + q == t;
    } else {
      var q' := q[..|q| - 1];
      assert (t + q)[..|t + q| - 1] == t + q';
      RightOfAffixes(t, q', cs);
    }
  }

  /** `sep.join(parts)`. */
  function Join(parts: seq<string>, sep: char): string {
    if parts == [] then []
    else if |parts| == 1 then parts[0]
    else parts[0] + [sep] + Join(parts[1..], sep)
  }

  /** `s.split(sep)`. */
  function Split(s: string, sep: char): (r: seq<string>)
    ensures r != [] && forall k :: 0 <= k < |r| ==> sep !in r[k]
  {
    if s == [] then [[]]
    else
      var rest := Split(s[1..], sep);
      if s[0] == sep then [[]] + rest
      else [[s[0]] + rest[0]] + rest[1..]
  }

  /** Splitting gives one more part than there are separators, no part
      holds a separator, and joining the parts with `sep` gives `s` back. */
  lemma SplitSpec(s: string, sep: char)
    ensures |Split(s, sep)| == multiset(s)[sep] + 1
    ensures forall k :: 0 <= k < |Split(s, sep)| ==> sep !in Split(s, sep)[k]
    ensures Join(Split(s, sep), sep) == s
  {
    SplitCount(s, sep);
    SplitJoin(s, sep);
  }

  lemma {:induction false} SplitCount(s: string, sep: char)
    ensures |Split(s, sep)| == multiset(s)[sep] + 1
  {
    if s != [] {
      SplitCount(s[1..], sep);
      assert s == [s[0]] + s[1..];
      assert multiset(s) == multiset([s[0]]) + multiset(s[1..]);
    }
  }

  lemma {:induction false} SplitJoin(s: string, sep: char)
    ensures Join(Split(s, sep), sep) == s
  {
    if s != [] {
      SplitJoin(s[1..], sep);
      var rest := Split(s[1..], sep);
      assert s == [s[0]] + s[1..];
      if s[0] == sep {
        JoinCons([], rest, sep);
      } else {
        JoinExtend(s[0], rest, sep);
      }
    }
  }

  lemma JoinCons(p: string, rest: seq<string>, sep: char)
    requires rest != []
    ensures Join([p] + rest, sep) == p + [sep] + Join(rest, sep)
  {
    assert ([p] + rest)[1..] == rest;
  }

  lemma JoinExtend(c: char, rest: seq<string>, sep: char)
    requires rest != []
    ensures Join([[c] + rest[0]] + rest[1..], sep) == [c] + Join(rest, sep)
  {
    var parts := [[c] + rest[0]] + rest[1..];
    if |rest| > 1 {
      assert parts[1..] == rest[1..];
    }
  }

  lemma SplitCons(c: char, t: string, sep: char)
    ensures Split([c] + t, sep) ==
              if c == sep then [[]] + Split(t, sep)
              else [[c] + Split(t, sep)[0]] + Split(t, sep)[1..]
  {
    assert ([c] + t)[1..] == t;
  }

  /** Splitting at a separator that comes after a separator-free head. */
  lemma {:induction false} SplitAfter(a: string, b: string, sep: char)
    requires sep !in a
    ensures Split(a + [sep] + b, sep) == [a] + Split(b, sep)
  {
    if a == [] {
      assert a + [sep] + b == [sep] + b;
      SplitCons(sep, b, sep);
    } else {
      assert sep !in a[1..];
      SplitAfter(a[1..], b, sep);
      SplitAfterStep(a[0], a[1..], b, sep);
      assert [a[0]] + a[1..] == a;
    }
  }

  lemma SplitAfterStep(c: char, a: string, b: string, sep: char)
    requires c != sep && Split(a + [sep] + b, sep) == [a] + Split(b, sep)
    ensures Split([c] + a + [sep] + b, sep) == [[c] + a] + Split(b, sep)
  {
    var x := a + [sep] + b;
    assert [c] + a + [sep] + b == [c] + x;
    SplitExtend(c, x, a, Split(b, sep), sep);
  }

  lemma SplitExtend(c: char, x: string, head: string, tail: seq<string>, sep: char)
    requires c != sep && Split(x, sep) == [head] + tail
    ensures Split([c] + x, sep) == [[c] + head] + tail
  {
    SplitCons(c, x, sep);
    assert ([head] + tail)[1..] == tail;
  }

  /** A separator-free string splits into itself. */
  lemma {:induction false} SplitNone(a: string, sep: char)
    requires sep !in a
    ensures Split(a, sep) == [a]
  {
    if a != [] {
      assert sep !in a[1..];
      SplitNone(a[1..], sep);
      assert [a[0]] + a[1..] == a;
    }
  }

  // ------------------------------------------------------------------
  // Numbers written in base 10 and base 16
  // ------------------------------------------------------------------

  function DigitValue(c: char): (v: nat)
    requires IsDigit(c)
    ensures v < 10
  {
    c as int - '0' as int
  }

  function DigitChar(d: nat): (c: char)
    requires d < 10
    ensures IsDigit(c) && DigitValue(c) == d
  {
    ('0' as int + d) as char
  }

  function HexDigitValue(c: char): (v: nat)
    requires IsHexDigit(c)
    ensures v < 16
  {
    if IsDigit(c) then c as int - '0' as int
    else if 'a' <= c <= 'f' then c as int - 'a' as int + 10
    else c as int - 'A' as int + 10
  }

  /** The lower-case digit that `%x` writes for `d`. */
  function HexChar(d: nat): (c: char)
    requires d < 16
    ensures IsLowerHexDigit(c) && HexDigitValue(c) == d
  {
    if d < 10 then ('0' as int + d) as char else ('a' as int + d - 10) as char
  }

  lemma HexCharOfValue(c: char)
    requires IsHexDigit(c)
    ensures HexChar(HexDigitValue(c)) == ToLower(c)
  {
  }

  /** The value of a string of decimal digits. */
  function DigitsValue(s: string): nat
    requires forall i :: 0 <= i < |s| ==> IsDigit(s[i])
  {
    if s == [] then 0 else DigitsValue(s[..|s| - 1]) * 10 + DigitValue(s[|s| - 1])
  }

  function Pow10(n: nat): (p: nat)
    ensures p >= 1
  {
    if n == 0 then 1 else 10 * Pow10(n - 1)
  }

  /** The digits `%d` writes for a non-negative integer: no leading zero,
      and reading them back gives the number. */
  function DecimalDigits(n: nat): (s: string)
    ensures s != [] && forall i :: 0 <= i < |s| ==> IsDigit(s[i])
    ensures DigitsValue(s) == n
    ensures |s| > 1 ==> s[0] != '0'
  {
    if n < 10 then [DigitChar(n)]
    else
      var s := DecimalDigits(n / 10) + [DigitChar(n % 10)];
      assert s[..|s| - 1] == DecimalDigits(n / 10);
      s
  }

  /** `'%d' % n`. */
  function FormatInt(n: int): (s: string)
    ensures s != [] && ',' !in s
    ensures n >= 0 ==> (forall i :: 0 <= i < |s| ==> IsDigit(s[i])) && DigitsValue(s) == n
    ensures n < 0 ==> && s[0] == '-'
                      && (forall i :: 1 <= i < |s| ==> IsDigit(s[i]))
                      && DigitsValue(s[1..]) == -n
  {
    if n < 0 then
      var d := DecimalDigits(-n);
      assert ("-" + d)[1..] == d;
      "-" + d
    else DecimalDigits(n)
  }

  /** The value of a string of hex digits. */
  function HexValue(s: string): nat
    requires forall i :: 0 <= i < |s| ==> IsHexDigit(s[i])
  {
    if s == [] then 0 else HexValue(s[..|s| - 1]) * 16 + HexDigitValue(s[|s| - 1])
  }

  /** The lower-case base-16 digits of a non-negative integer: no leading
      zero, and reading them back gives the number. */
  function HexDigits(n: nat): (s: string)
    ensures s != [] && forall i :: 0 <= i < |s| ==> IsLowerHexDigit(s[i])
    ensures (forall i :: 0 <= i < |s| ==> IsHexDigit(s[i])) && HexValue(s) == n
    ensures |s| > 1 ==> s[0] != '0'
    ensures n < 16 <==> |s| == 1
  {
    if n < 16 then [HexChar(n)]
    else
      var s := HexDigits(n / 16) + [HexChar(n % 16)];
      assert s[..|s| - 1] == HexDigits(n / 16);
      s
  }

  /** `'%02x' % n`: base 16, lower case, zero-padded to two characters;
      a negative number gets a minus sign and no padding. */
  function Hex02(n: int): (s: string)
    ensures 0 <= n < 256 ==> s == [HexChar(n / 16), HexChar(n % 16)]
  {
    if n < 0 then "-" + HexDigits(-n)
    else
      var d := HexDigits(n);
      assert 16 <= n < 256 ==> HexDigits(n / 16) == [HexChar(n / 16)];
      if |d| < 2 then "0" + d else d
  }

  /** `int(s, base=16)` for a two-character string, digits only. */
  function ParseHexPair(a: char, b: char): (r: Option<nat>)
    ensures r.Some? <==> IsHexDigit(a) && IsHexDigit(b)
    ensures r.Some? ==> r.value == 16 * HexDigitValue(a) + HexDigitValue(b)
    ensures r.Some? ==> r.value < 256 && Hex02(r.value) == [ToLower(a), ToLower(b)]
  {
    if IsHexDigit(a) && IsHexDigit(b) then
      var v := 16 * HexDigitValue(a) + HexDigitValue(b);
      HexCharOfValue(a);
      HexCharOfValue(b);
      assert v / 16 == HexDigitValue(a) && v % 16 == HexDigitValue(b);
      Some(v)
    else None
  }

  /** The first occurrence of a character, by index. */
  function FirstIndex(s: string, c: char): (i: nat)
    requires c in s
    ensures i < |s| && s[i] == c && c !in s[..i]
  {
    if s[0] == c then 0
    else
      assert c in s[1..] by { assert s == [s[0]] + s[1..]; }
      var j := FirstIndex(s[1..], c);
      assert s[..j + 1] == [s[0]] + s[1..][..j];
      j + 1
  }

  /** `float(run)` for a non-empty run of digits and dots: at most one dot
      and at least one digit, read exactly. */
  function ParseDecimalRun(run: string): (r: Option<real>)
    requires forall i :: 0 <= i < |run| ==> IsRunChar(run[i])
    ensures r.Some? <==> multiset(run)['.'] <= 1 && multiset(run)['.'] < |run|
    ensures r.Some? ==> r.value >= 0.0
    ensures run != [] && (forall i :: 0 <= i < |run| ==> IsDigit(run[i])) ==> r == Some(DigitsValue(run) as real)
  {
    if '.' !in run then
      DotFreeDigits(run);
      if run == [] then None else Some(DigitsValue(run) as real)
    else
      var i := FirstIndex(run, '.');
      DotsAfterFirst(run, i);
      ReadDotted(run[..i], run[i + 1..])
  }

  /** The number a run with a dot spells: digits before the dot, at most one
      dot, and at least one digit on either side. */
  function ReadDotted(whole: string, frac: string): (r: Option<real>)
    requires forall i :: 0 <= i < |whole| ==> IsRunChar(whole[i])
    requires forall i :: 0 <= i < |frac| ==> IsRunChar(frac[i])
    requires '.' !in whole
    ensures r.Some? <==> '.' !in frac && (whole != [] || frac != [])
    ensures r.Some? ==> r.value >= 0.0
  {
    if '.' in frac then None
    else
      DotFreeDigits(whole);
      DotFreeDigits(frac);
      if whole == [] && frac == [] then None
      else Some(DottedValue(whole, frac))
  }

  /** The value of the digits `whole`, a dot, and the digits `frac`. */
  function DottedValue(whole: string, frac: string): (v: real)
    requires forall i :: 0 <= i < |whole| ==> IsDigit(whole[i])
    requires forall i :: 0 <= i < |frac| ==> IsDigit(frac[i])
    ensures v >= 0.0
  {
    DigitsValue(whole) as real + DigitsValue(frac) as real / Pow10(|frac|) as real
  }

  /** The dots of a run are its first dot and the dots after it. */
  lemma DotsAfterFirst(run: string, i: nat)
    requires i < |run| && run[i] == '.' && '.' !in run[..i]
    ensures multiset(run)['.'] == multiset(run[i + 1..])['.'] + 1
    ensures '.' in run[i + 1..] <==> multiset(run[i + 1..])['.'] > 0
    ensures |run| == |run[..i]| + 1 + |run[i + 1..]|
  {
    var whole, frac := run[..i], run[i + 1..];
    assert run == whole + ['.'] + frac;
    assert multiset(run) == multiset(whole) + multiset(['.']) + multiset(frac);
    assert multiset(whole)['.'] == 0;
  }

  /** A dotted run reads as its whole part plus its fraction digits over a power of ten. */
  lemma ParseDottedRun(whole: string, frac: string)
    requires forall i :: 0 <= i < |whole| ==> IsDigit(whole[i])
    requires forall i :: 0 <= i < |frac| ==> IsDigit(frac[i])
    requires whole != [] || frac != []
    ensures var run := whole + ['.'] + frac;
            && (forall i :: 0 <= i < |run| ==> IsRunChar(run[i]))
            && ParseDecimalRun(run)
                 == Some(DottedValue(whole, frac))
  {
    var run := whole + ['.'] + frac;
    forall i | 0 <= i < |run|
      ensures IsRunChar(run[i])
    {
      if i < |whole| {
        assert run[i] == whole[i];
      } else if i > |whole| {
        assert run[i] == frac[i - |whole| - 1];
      }
    }
    FirstDotAt(whole, frac);
    assert run[..|whole|] == whole;
    assert run[|whole| + 1..] == frac;
    DotsAfterFirst(run, |whole|);
    assert '.' !in frac by {
      DotFreeOfDigits(frac);
    }
    calc {
      ParseDecimalRun(run);
      ReadDotted(run[..|whole|], run[|whole| + 1..]);
      ReadDotted(whole, frac);
      { ReadDottedValue(whole, frac); }
      Some(DottedValue(whole, frac));
    }
  }

  lemma ReadDottedValue(whole: string, frac: string)
    requires forall i :: 0 <= i < |whole| ==> IsDigit(whole[i])
    requires forall i :: 0 <= i < |frac| ==> IsDigit(frac[i])
    requires whole != [] || frac != []
    ensures '.' !in whole && '.' !in frac
    ensures ReadDotted(whole, frac)
              == Some(DottedValue(whole, frac))
  {
    DotFreeOfDigits(whole);
    DotFreeOfDigits(frac);
  }

  lemma DotFreeOfDigits(s: string)
    requires forall i :: 0 <= i < |s| ==> IsDigit(s[i])
    ensures '.' !in s
  {
  }

  lemma FirstDotAt(whole: string, frac: string)
    requires forall i :: 0 <= i < |whole| ==> IsDigit(whole[i])
    ensures '.' in whole + ['.'] + frac && FirstIndex(whole + ['.'] + frac, '.') == |whole|
  {
    var run := whole + ['.'] + frac;
    assert run[|whole|] == '.';
  }

  lemma DotFreeDigits(s: string)
    requires forall i :: 0 <= i < |s| ==> IsRunChar(s[i])
    requires '.' !in s
    ensures forall i :: 0 <= i < |s| ==> IsDigit(s[i])
    ensures multiset(s)['.'] == 0
  {
  }

  // ------------------------------------------------------------------
  // re.search(r'([\d.]+)', part).group(1)
  // ------------------------------------------------------------------

  /** The longest prefix made of digits and dots. */
  function TakeRun(s: string): (r: string)
    ensures |r| <= |s| && r == s[..|r|]
    ensures forall i :: 0 <= i < |r| ==> IsRunChar(r[i])
    ensures |r| == |s| || !IsRunChar(s[|r|])
  {
    if s != [] && IsRunChar(s[0]) then
      var r := [s[0]] + TakeRun(s[1..]);
      assert s == [s[0]] + s[1..];
      r
    else []
  }

  /** The leftmost, longest run of digits and dots, if any. */
  function FirstRun(s: string): (r: Option<string>)
    ensures r.None? <==> forall i :: 0 <= i < |s| ==> !IsRunChar(s[i])
    ensures r.Some? ==> r.value != [] && forall i :: 0 <= i < |r.value| ==> IsRunChar(r.value[i])
  {
    if s == [] then None
    else if IsRunChar(s[0]) then Some(TakeRun(s))
    else
      var r := FirstRun(s[1..]);
      assert forall i :: 1 <= i < |s| ==> s[i] == s[1..][i - 1];
      r
  }

  /** The search semantics: the match starts at the first digit or dot and
      extends as far as digits and dots go. */
  lemma {:induction false} FirstRunOfAffixes(p: string, run: string, q: string)
    requires forall i :: 0 <= i < |p| ==> !IsRunChar(p[i])
    requires run != [] && forall i :: 0 <= i < |run| ==> IsRunChar(run[i])
    requires q == [] || !IsRunChar(q[0])
    ensures FirstRun(p + run + q) == Some(run)
  {
    if p == [] {
      assert p + run + q == run + q;
      TakeRunOfAffixes(run, q);
    } else {
      assert (p + run + q)[1..] == p[1..] + run + q;
      FirstRunOfAffixes(p[1..], run, q);
    }
  }

  lemma {:induction false} TakeRunOfAffixes(run: string, q: string)
    requires forall i :: 0 <= i < |run| ==> IsRunChar(run[i])
    requires q == [] || !IsRunChar(q[0])
    ensures TakeRun(run + q) == run
  {
    if run == [] {
      assert run + q == q;
    } else {
      assert (run + q)[1..] == run[1..] + q;
      TakeRunOfAffixes(run[1..], q);
      assert [run[0]] + run[1..] == run;
    }
  }

  // ------------------------------------------------------------------
  // parse_hex_color, parse_color
  // ------------------------------------------------------------------

  /** The channel fraction for an integer level: n / 255. */
  function Level(n: nat): real {
    n as real / 255.0
  }

  /** The colour with the given integer levels. */
  function FromLevels(r: nat, g: nat, b: nat): Triple {
    Triple(Level(r), Level(g), Level(b))
  }

  /** A triple whose channels are all levels n / 255 with n in 0..255. */
  predicate IsByteColor(t: Triple) {
    exists r: nat, g: nat, b: nat | r < 256 && g < 256 && b < 256 :: t == FromLevels(r, g, b)
  }

  /** The hex body: `#`s stripped from both ends, a 3-character body doubled. */
  function HexBody(color: string): (r: string)
    ensures |r| == 6 <==> |Strip(color, HexMark)| == 3 || |Strip(color, HexMark)| == 6
    ensures |Strip(color, HexMark)| == 6 ==> r == Strip(color, HexMark)
    ensures |Strip(color, HexMark)| == 3 ==> forall i :: 0 <= i < 6 ==> r[i] == Strip(color, HexMark)[i / 2]
  {
    var body := Strip(color, HexMark);
    if |body| == 3 then Doubled(body) else body
  }

  /** `''.join(ch*2 for ch in s)`. */
  function Doubled(s: string): (r: string)
    ensures |r| == 2 * |s|
    ensures forall i :: 0 <= i < |r| ==> r[i] == s[i / 2]
  {
    if s == [] then []
    else
      var r := [s[0], s[0]] + Doubled(s[1..]);
      assert forall i :: 2 <= i < |r| ==> r[i] == Doubled(s[1..])[i - 2];
      r
  }

  /** `parse_hex_color`. A body of any length but 3 or 6 is a length
      error; a 6-character body of hex digits gives three levels n / 255. */
  function ParseHexColor(color: string): (r: Result<Triple>)
    ensures r == Err(HexLength) <==> |Strip(color, HexMark)| != 3 && |Strip(color, HexMark)| != 6
    ensures r.Ok? <==> |HexBody(color)| == 6 && forall i :: 0 <= i < 6 ==> IsHexDigit(HexBody(color)[i])
    ensures r.Ok? ==> InBox(r.value) && IsByteColor(r.value)
    ensures |HexBody(color)| == 6 ==> r == ParseHexBody(HexBody(color))
  {
    var body := HexBody(color);
    if |body| == 6 then ParseHexBody(body) else Err(HexLength)
  }

  /** Three hex pairs read as levels; the first non-hex character is a digit error. */
  function ParseHexBody(body: string): (r: Result<Triple>)
    requires |body| == 6
    ensures r.Ok? || r == Err(HexDigit)
    ensures r.Ok? <==> forall i :: 0 <= i < 6 ==> IsHexDigit(body[i])
    ensures r.Ok? ==> InBox(r.value) && IsByteColor(r.value)
    ensures r.Ok? ==> r.value == FromLevels(16 * HexDigitValue(body[0]) + HexDigitValue(body[1]),
                                            16 * HexDigitValue(body[2]) + HexDigitValue(body[3]),
                                            16 * HexDigitValue(body[4]) + HexDigitValue(body[5]))
  {
    match ParseHexPair(body[0], body[1])
    case None => Err(HexDigit)
    case Some(r) =>
      match ParseHexPair(body[2], body[3])
      case None => Err(HexDigit)
      case Some(g) =>
        match ParseHexPair(body[4], body[5])
        case None => Err(HexDigit)
        case Some(b) =>
          assert IsByteColor(FromLevels(r, g, b));
          Ok(FromLevels(r, g, b))
  }

  /** One part of the decimal form: the first run of digits and dots, read as
      a number and divided by 255. */
  function DecimalChannel(part: string): (r: Result<real>)
    ensures r == Err(NoNumber) <==> forall i :: 0 <= i < |part| ==> !IsRunChar(part[i])
    ensures r.Ok? ==> r.value >= 0.0
  {
    match FirstRun(part)
    case None => Err(NoNumber)
    case Some(run) =>
      match ParseDecimalRun(run)
      case None => Err(BadNumber)
      case Some(v) => Ok(v / 255.0)
  }

  /** `parse_color`. A comma-free string is trimmed and read as hex; two
      commas give the decimal form, read part by part, the first failing part
      deciding the error; any other number of commas is an error. */
  function ParseColor(color: string): (r: Result<Triple>)
    ensures ',' !in color ==> r == ParseHexColor(Strip(color, Whitespace))
    ensures |Split(color, ',')| == 1 ==> r == ParseHexColor(Strip(color, Whitespace))
    ensures |Split(color, ',')| != 1 && |Split(color, ',')| != 3 ==> r == Err(DecimalArity)
    ensures |Split(color, ',')| == 3 ==>
              var parts := Split(color, ',');
              && (r.Ok? <==> DecimalChannel(parts[0]).Ok? && DecimalChannel(parts[1]).Ok?
                             && DecimalChannel(parts[2]).Ok?)
              && (r.Ok? ==> r.value == Triple(DecimalChannel(parts[0]).value,
                                              DecimalChannel(parts[1]).value,
                                              DecimalChannel(parts[2]).value))
  {
    var parts := Split(color, ',');
    assert ',' !in color ==> |parts| == 1 by {
      if ',' !in color {
        SplitNone(color, ',');
      }
    }
    if |parts| == 1 then
      ParseHexColor(Strip(color, Whitespace))
    else if |parts| != 3 then Err(DecimalArity)
    else
      match DecimalChannel(parts[0])
      case Err(e) => Err(e)
      case Ok(r) =>
        match DecimalChannel(parts[1])
        case Err(e) => Err(e)
        case Ok(g) =>
          match DecimalChannel(parts[2])
          case Err(e) => Err(e)
          case Ok(b) => Ok(Triple(r, g, b))
  }

  /** The number of commas decides the form: none is hex, two is decimal,
      and any other number is an arity error. */
  lemma CommasDecideForm(color: string)
    ensures multiset(color)[','] == 0 ==> ParseColor(color) == ParseHexColor(Strip(color, Whitespace))
    ensures multiset(color)[','] != 0 && multiset(color)[','] != 2 ==> ParseColor(color) == Err(DecimalArity)
    ensures multiset(color)[','] == 2 <==> |Split(color, ',')| == 3
  {
    SplitCount(color, ',');
  }

  // ------------------------------------------------------------------
  // color_to_int, color_to_decimal, color_to_hex
  // ------------------------------------------------------------------

  /** Python's `round` on a number: the nearest integer, ties to even. */
  function RoundHalfEven(x: real): (n: int)
    ensures -0.5 <= n as real - x <= 0.5
    ensures (n as real - x == 0.5 || x - n as real == 0.5) ==> n % 2 == 0
  {
    var f := x.Floor;
    var d := x - f as real;
    if d < 0.5 then f else if d > 0.5 then f + 1 else if f % 2 == 0 then f else f + 1
  }

  /** Rounding is monotone. */
  lemma RoundMonotone(x: real, y: real)
    requires x <= y
    ensures RoundHalfEven(x) <= RoundHalfEven(y)
  {
    var m, n := RoundHalfEven(x), RoundHalfEven(y);
    if m > n {
      assert false;
    }
  }

  /** One channel of `color_to_int`: `int(round(c * 255))`. */
  function ToLevel(c: real): (n: int)
    ensures InUnit(c) ==> 0 <= n <= 255
    ensures -0.5 <= n as real - c * 255.0 <= 0.5
  {
    var n := RoundHalfEven(c * 255.0);
    if InUnit(c) then
      RoundMonotone(0.0, c * 255.0);
      RoundMonotone(c * 255.0, 255.0);
      RoundOfIntegral(0);
      RoundOfIntegral(255);
      n
    else n
  }

  lemma RoundOfIntegral(k: int)
    ensures RoundHalfEven(k as real) == k
  {
  }

  /** A level n / 255 converts back to exactly n. */
  lemma ToLevelOfLevel(n: nat)
    ensures ToLevel(Level(n)) == n
  {
    assert Level(n) * 255.0 == n as real;
    RoundOfIntegral(n);
  }

  /** `color_to_int`: each channel scaled to 0..255 and rounded. */
  function ColorToInt(rgb: Triple): (n: (int, int, int))
    ensures InBox(rgb) ==> 0 <= n.0 <= 255 && 0 <= n.1 <= 255 && 0 <= n.2 <= 255
    ensures -0.5 <= n.0 as real - rgb.c0 * 255.0 <= 0.5
    ensures -0.5 <= n.1 as real - rgb.c1 * 255.0 <= 0.5
    ensures -0.5 <= n.2 as real - rgb.c2 * 255.0 <= 0.5
  {
    (ToLevel(rgb.c0), ToLevel(rgb.c1), ToLevel(rgb.c2))
  }

  /** `'rgb(%d, %d, %d)' % (r, g, b)`. */
  function FormatDecimal(r: int, g: int, b: int): (s: string)
    ensures |s| > 4 && s[..4] == "rgb(" && s[|s| - 1] == ')'
    ensures multiset(s)[','] == 2
    ensures |Split(s, ',')| == 3
  {
    var d0, d1, d2 := FormatInt(r), FormatInt(g), FormatInt(b);
    DecimalTextShape(d0, d1, d2);
    SplitDecimalShape(d0, d1, d2);
    "rgb(" + d0 + ", " + d1 + ", " + d2 + ")"
  }

  /** `color_to_decimal`: `rgb(`, three integers separated by `, `, and `)`,
      the only two commas being the separators. */
  function ColorToDecimal(rgb: Triple): (s: string)
    ensures |s| > 4 && s[..4] == "rgb(" && s[|s| - 1] == ')'
    ensures multiset(s)[','] == 2
  {
    var n := ColorToInt(rgb);
    FormatDecimal(n.0, n.1, n.2)
  }

  /** `color_to_hex`: for a colour in the cube, `#` and exactly six
      lower-case hex digits, two per channel, which read back as the
      channel's integer level. */
  function ColorToHex(rgb: Triple): (s: string)
    ensures InBox(rgb) ==>
              && |s| == 7 && s[0] == '#'
              && (forall k :: 1 <= k < 7 ==> IsLowerHexDigit(s[k]))
              && 16 * HexDigitValue(s[1]) + HexDigitValue(s[2]) == ColorToInt(rgb).0
              && 16 * HexDigitValue(s[3]) + HexDigitValue(s[4]) == ColorToInt(rgb).1
              && 16 * HexDigitValue(s[5]) + HexDigitValue(s[6]) == ColorToInt(rgb).2
  {
    var n := ColorToInt(rgb);
    var x, y, z := Hex02(n.0), Hex02(n.1), Hex02(n.2);
    var s := "#" + x + y + z;
    assert InBox(rgb) ==> s == ['#', x[0], x[1], y[0], y[1], z[0], z[1]];
    s
  }

  /** The colour a parse of the formatted text gives back: each channel
      snapped to the nearest level n / 255. */
  function Quantized(rgb: Triple): Triple
    requires InBox(rgb)
  {
    var n := ColorToInt(rgb);
    FromLevels(n.0, n.1, n.2)
  }

  // ------------------------------------------------------------------
  // Properties
  // ------------------------------------------------------------------

  /** `#abc` parses the same as `#aabbcc`. */
  lemma ShortHexIsDoubled(color: string)
    requires |Strip(color, HexMark)| == 3
    ensures ParseHexColor(color) == ParseHexColor(Doubled(Strip(color, HexMark)))
  {
    var body := Strip(color, HexMark);
    var long := Doubled(body);
    assert long[0] == body[0] && long[5] == body[2];
    StripFree(long, HexMark);
  }

  /** A string that neither starts nor ends with a character of `cs` is left alone by stripping. */
  lemma StripFree(t: string, cs: set<char>)
    requires t != [] ==> t[0] !in cs && t[|t| - 1] !in cs
    ensures Strip(t, cs) == t
  {
    StripAround([], t, [], cs);
    assert [] + t + [] == t;
  }

  /** Hex text read and written again is `#` and the lower-cased 6-digit body. */
  lemma HexRoundTrip(color: string)
    requires ParseHexColor(color).Ok?
    ensures ColorToHex(ParseHexColor(color).value) == "#" + Lowered(HexBody(color))
  {
    var body := HexBody(color);
    var r, g, b := ParseHexPair(body[0], body[1]).value, ParseHexPair(body[2], body[3]).value,
                   ParseHexPair(body[4], body[5]).value;
    calc {
      ColorToHex(ParseHexColor(color).value);
      ColorToHex(FromLevels(r, g, b));
      { LevelsToHex(r, g, b); }
      "#" + (Hex02(r) + Hex02(g) + Hex02(b));
      { LoweredPairs(body); }
      "#" + Lowered(body);
    }
  }

  /** Levels in 0..255 are written as their two-digit hex pairs. */
  lemma LevelsToHex(r: nat, g: nat, b: nat)
    requires r < 256 && g < 256 && b < 256
    ensures ColorToHex(FromLevels(r, g, b)) == "#" + (Hex02(r) + Hex02(g) + Hex02(b))
  {
    ToLevelOfLevel(r);
    ToLevelOfLevel(g);
    ToLevelOfLevel(b);
    assert ColorToInt(FromLevels(r, g, b)) == (r, g, b);
    assert "#" + Hex02(r) + Hex02(g) + Hex02(b) == "#" + (Hex02(r) + Hex02(g) + Hex02(b));
  }

  lemma LoweredPairs(body: string)
    requires |body| == 6
    ensures Lowered(body) == [ToLower(body[0]), ToLower(body[1])] + [ToLower(body[2]), ToLower(body[3])]
                             + [ToLower(body[4]), ToLower(body[5])]
  {
  }

  /** Hex text written for a colour in the cube parses back to that colour
      snapped to its levels. */
  lemma HexFormatParses(rgb: Triple)
    requires InBox(rgb)
    ensures ParseHexColor(ColorToHex(rgb)) == Ok(Quantized(rgb))
  {
    var s := ColorToHex(rgb);
    HexBodyOfText(s);
    HexTextReads(s[1..]);
  }

  /** `#` and six lower-case hex digits: stripping `#` leaves the six digits. */
  lemma HexBodyOfText(s: string)
    requires |s| == 7 && s[0] == '#' && forall k :: 1 <= k < 7 ==> IsLowerHexDigit(s[k])
    ensures HexBody(s) == s[1..]
  {
    StripAround("#", s[1..], [], HexMark);
    assert "#" + s[1..] + [] == s;
  }

  /** Six hex digits read as the levels their pairs spell. */
  lemma HexTextReads(body: string)
    requires |body| == 6 && forall k :: 0 <= k < 6 ==> IsHexDigit(body[k])
    ensures ParseHexBody(body) == Ok(FromLevels(16 * HexDigitValue(body[0]) + HexDigitValue(body[1]),
                                                16 * HexDigitValue(body[2]) + HexDigitValue(body[3]),
                                                16 * HexDigitValue(body[4]) + HexDigitValue(body[5])))
  {
  }

  /** Levels written as hex and read back are the same levels. */
  lemma HexLevelsRoundTrip(r: nat, g: nat, b: nat)
    requires r < 256 && g < 256 && b < 256
    ensures ParseHexColor(ColorToHex(FromLevels(r, g, b))) == Ok(FromLevels(r, g, b))
  {
    ToLevelOfLevel(r);
    ToLevelOfLevel(g);
    ToLevelOfLevel(b);
    HexFormatParses(FromLevels(r, g, b));
  }

  /** `rgb(r, g, b)` with decimal integers parses to the levels r, g, b. */
  lemma FormatDecimalOfLevels(r: nat, g: nat, b: nat)
    ensures FormatDecimal(r, g, b) == "rgb(" + DecimalDigits(r) + ", " + DecimalDigits(g) + ", " + DecimalDigits(b) + ")"
  {
    assert FormatInt(r) == DecimalDigits(r) && FormatInt(g) == DecimalDigits(g) && FormatInt(b) == DecimalDigits(b);
  }

  lemma ParseDecimalText(r: nat, g: nat, b: nat)
    ensures ParseColor(FormatDecimal(r, g, b)) == Ok(FromLevels(r, g, b))
  {
    FormatDecimalOfLevels(r, g, b);
    LevelChannels(r, g, b);
    ParseDecimalShape(DecimalDigits(r), DecimalDigits(g), DecimalDigits(b), FromLevels(r, g, b));
  }

  /** The three parts of the decimal text read as the three levels. */
  lemma LevelChannels(r: nat, g: nat, b: nat)
    ensures DecimalChannel("rgb(" + DecimalDigits(r)) == Ok(Level(r))
    ensures DecimalChannel(" " + DecimalDigits(g)) == Ok(Level(g))
    ensures DecimalChannel(" " + DecimalDigits(b) + ")") == Ok(Level(b))
  {
    DecimalChannelOfDigits("rgb(", r, []);
    assert "rgb(" + DecimalDigits(r) + [] == "rgb(" + DecimalDigits(r);
    DecimalChannelOfDigits(" ", g, []);
    assert " " + DecimalDigits(g) + [] == " " + DecimalDigits(g);
    DecimalChannelOfDigits(" ", b, ")");
  }

  lemma ParseDecimalShape(d0: string, d1: string, d2: string, t: Triple)
    requires ',' !in d0 && ',' !in d1 && ',' !in d2
    requires DecimalChannel("rgb(" + d0) == Ok(t.c0)
    requires DecimalChannel(" " + d1) == Ok(t.c1)
    requires DecimalChannel(" " + d2 + ")") == Ok(t.c2)
    ensures ParseColor("rgb(" + d0 + ", " + d1 + ", " + d2 + ")") == Ok(t)
  {
    SplitDecimalShape(d0, d1, d2);
    ParseThreeParts("rgb(" + d0 + ", " + d1 + ", " + d2 + ")", t);
  }

  lemma ParseThreeParts(text: string, t: Triple)
    requires |Split(text, ',')| == 3
    requires DecimalChannel(Split(text, ',')[0]) == Ok(t.c0)
    requires DecimalChannel(Split(text, ',')[1]) == Ok(t.c1)
    requires DecimalChannel(Split(text, ',')[2]) == Ok(t.c2)
    ensures ParseColor(text) == Ok(t)
  {
  }

  /** A part that holds one decimal integer between non-number text reads as that level. */
  /** A part with one run of digits and dots between non-number text reads
      as `float` of the run over 255, or is a bad number when `float`
      rejects the run. */
  lemma DecimalChannelOfRun(p: string, run: string, q: string)
    requires forall i :: 0 <= i < |p| ==> !IsRunChar(p[i])
    requires run != [] && forall i :: 0 <= i < |run| ==> IsRunChar(run[i])
    requires q == [] || !IsRunChar(q[0])
    ensures DecimalChannel(p + run + q) == match ParseDecimalRun(run)
                                           case None => Err(BadNumber)
                                           case Some(v) => Ok(v / 255.0)
  {
    FirstRunOfAffixes(p, run, q);
  }

  lemma DecimalChannelOfDigits(p: string, n: nat, q: string)
    requires forall i :: 0 <= i < |p| ==> !IsRunChar(p[i])
    requires q == [] || !IsRunChar(q[0])
    ensures DecimalChannel(p + DecimalDigits(n) + q) == Ok(Level(n))
  {
    var d := DecimalDigits(n);
    FirstRunOfAffixes(p, d, q);
    DigitRunValue(d);
  }

  lemma DigitRunValue(d: string)
    requires d != [] && forall i :: 0 <= i < |d| ==> IsDigit(d[i])
    ensures forall i :: 0 <= i < |d| ==> IsRunChar(d[i])
    ensures ParseDecimalRun(d) == Some(DigitsValue(d) as real)
  {
  }

  /** The decimal text splits at its two commas. */
  lemma SplitDecimalShape(d0: string, d1: string, d2: string)
    requires ',' !in d0 && ',' !in d1 && ',' !in d2
    ensures Split("rgb(" + d0 + ", " + d1 + ", " + d2 + ")", ',') == ["rgb(" + d0, " " + d1, " " + d2 + ")"]
  {
    var p0, p1, p2 := "rgb(" + d0, " " + d1, " " + d2 + ")";
    assert ',' !in p0 by { NoSepInConcat("rgb(", d0, ','); }
    assert ',' !in p1 by { NoSepInConcat(" ", d1, ','); }
    assert ',' !in p2 by { NoSepInConcat(" " + d2, ")", ','); }
    DecimalShapeRegroup(d0, d1, d2);
    SplitThree(p0, p1, p2, ',');
  }

  /** The decimal text starts with `rgb(`, ends with `)`, and its only
      commas are the two separators. */
  lemma DecimalTextShape(d0: string, d1: string, d2: string)
    requires ',' !in d0 && ',' !in d1 && ',' !in d2
    ensures var t := "rgb(" + d0 + ", " + d1 + ", " + d2 + ")";
            |t| > 4 && t[..4] == "rgb(" && t[|t| - 1] == ')' && multiset(t)[','] == 2
  {
    DecimalTextCommas(d0, d1, d2);
    DecimalTextEnds(d0 + ", " + d1 + ", " + d2);
    assert "rgb(" + d0 + ", " + d1 + ", " + d2 + ")" == "rgb(" + (d0 + ", " + d1 + ", " + d2) + ")";
  }

  lemma DecimalTextEnds(u: string)
    ensures var t := "rgb(" + u + ")";
            |t| > 4 && t[..4] == "rgb(" && t[|t| - 1] == ')'
  {
    assert "rgb(" + u + ")" == "rgb(" + (u + ")");
    PrefixOfConcat("rgb(", u + ")");
  }

  lemma PrefixOfConcat(a: string, b: string)
    ensures (a + b)[..|a|] == a
  {
  }

  lemma DecimalTextCommas(d0: string, d1: string, d2: string)
    requires ',' !in d0 && ',' !in d1 && ',' !in d2
    ensures multiset("rgb(" + d0 + ", " + d1 + ", " + d2 + ")")[','] == 2
  {
    SplitDecimalShape(d0, d1, d2);
    SplitCount("rgb(" + d0 + ", " + d1 + ", " + d2 + ")", ',');
  }

  lemma DecimalShapeRegroup(d0: string, d1: string, d2: string)
    ensures "rgb(" + d0 + ", " + d1 + ", " + d2 + ")" == ("rgb(" + d0) + [','] + (" " + d1) + [','] + (" " + d2 + ")")
  {
  }

  lemma NoSepInConcat(a: string, b: string, sep: char)
    requires sep !in a && sep !in b
    ensures sep !in a + b
  {
  }

  lemma SplitThree(a: string, b: string, c: string, sep: char)
    requires sep !in a && sep !in b && sep !in c
    ensures Split(a + [sep] + b + [sep] + c, sep) == [a, b, c]
  {
    var rest := b + [sep] + c;
    calc {
      Split(a + [sep] + b + [sep] + c, sep);
      { assert a + [sep] + b + [sep] + c == a + [sep] + rest; }
      Split(a + [sep] + rest, sep);
      { SplitAfter(a, rest, sep); }
      [a] + Split(rest, sep);
      { SplitTwo(b, c, sep); }
      [a, b, c];
    }
  }

  lemma SplitTwo(b: string, c: string, sep: char)
    requires sep !in b && sep !in c
    ensures Split(b + [sep] + c, sep) == [b, c]
  {
    SplitAfter(b, c, sep);
    SplitNone(c, sep);
  }

  /** Levels written in decimal form give the same text. */
  lemma FormatLevels(r: nat, g: nat, b: nat)
    ensures ColorToDecimal(FromLevels(r, g, b)) == FormatDecimal(r, g, b)
  {
    ToLevelOfLevel(r);
    ToLevelOfLevel(g);
    ToLevelOfLevel(b);
  }

  /** `rgb(r, g, b)` read and written again is the same text. */
  lemma DecimalRoundTrip(r: nat, g: nat, b: nat)
    ensures ParseColor(FormatDecimal(r, g, b)).Ok?
    ensures ColorToDecimal(ParseColor(FormatDecimal(r, g, b)).value) == FormatDecimal(r, g, b)
  {
    ParseDecimalText(r, g, b);
    FormatLevels(r, g, b);
  }

  /** Decimal text written for a colour in the cube parses back to that colour
      snapped to its levels. */
  lemma DecimalFormatParses(rgb: Triple)
    requires InBox(rgb)
    ensures ParseColor(ColorToDecimal(rgb)) == Ok(Quantized(rgb))
  {
    var n := ColorToInt(rgb);
    ParseDecimalText(n.0, n.1, n.2);
  }
}
