/** Hex colour handling: the validity test applied to typed colours, the
    expansion of three-digit colours, and the conversion of a colour and an
    opacity into the `rgba(r, g, b, o)` text placed in the gradient. */
module Hex {
  import opened Numerals

  predicate IsHexDigit(c: char)
  {
    ('0' <= c <= '9') || ('a' <= c <= 'f') || ('A' <= c <= 'F')
  }

  function HexDigitValue(c: char): (v: nat)
    requires IsHexDigit(c)
    ensures v < 16
  {
    if '0' <= c <= '9' then (c as int - '0' as int) as nat
    else if 'a' <= c <= 'f' then (c as int - 'a' as int + 10) as nat
    else (c as int - 'A' as int + 10) as nat
  }

  /** The characters JavaScript's parseInt skips before a number: the
      ECMAScript WhiteSpace and LineTerminator characters. */
  predicate IsJsWhitespace(c: char)
  {
    c == '\t' || c == '\n' || c == '\U{000B}' || c == '\U{000C}' || c == '\r' || c == ' '
    || c == '\U{00A0}' || c == '\U{1680}' || ('\U{2000}' <= c <= '\U{200A}')
    || c == '\U{2028}' || c == '\U{2029}' || c == '\U{202F}' || c == '\U{205F}'
    || c == '\U{3000}' || c == '\U{FEFF}'
  }

  // ---------------------------------------------------------------------
  // isValidHex: the regular expression /^#([0-9A-F]{3}){1,2}$/i
  // ---------------------------------------------------------------------

  /** `t` is made of between `lo` and `hi` groups of three hex digits,
      i.e. it matches `([0-9A-F]{3}){lo,hi}` case-insensitively. */
  predicate MatchesTriples(t: string, lo: nat, hi: nat)
    decreases |t|
  {
    if t == [] then lo == 0
    else
      hi > 0 && |t| >= 3 && IsHexDigit(t[0]) && IsHexDigit(t[1]) && IsHexDigit(t[2])
      && MatchesTriples(t[3..], if lo > 0 then lo - 1 else 0, hi - 1)
  }

  /** The whole string matches `^#([0-9A-F]{3}){1,2}$` with the `i` flag. */
  predicate IsValidHex(s: string)
  {
    |s| >= 1 && s[0] == '#' && MatchesTriples(s[1..], 1, 2)
  }

  predicate AllHexAfterHash(s: string)
  {
    forall i :: 1 <= i < |s| ==> IsHexDigit(s[i])
  }

  /** The regular expression accepts exactly `#` followed by three or six hex digits. */
  lemma IsValidHexIff(s: string)
    ensures IsValidHex(s) <==> (|s| == 4 || |s| == 7) && s[0] == '#' && AllHexAfterHash(s)
  {
    if |s| >= 1 && s[0] == '#' {
      var t := s[1..];
      if |t| >= 3 {
        assert MatchesTriples(t, 1, 2) <==>
          IsHexDigit(t[0]) && IsHexDigit(t[1]) && IsHexDigit(t[2]) && MatchesTriples(t[3..], 0, 1);
        var u := t[3..];
        if |u| >= 3 {
          assert MatchesTriples(u, 0, 1) <==>
            IsHexDigit(u[0]) && IsHexDigit(u[1]) && IsHexDigit(u[2]) && MatchesTriples(u[3..], 0, 0);
          assert MatchesTriples(u[3..], 0, 0) <==> u[3..] == [];
        }
      }
    }
  }

  // ---------------------------------------------------------------------
  // normalizeHex
  // ---------------------------------------------------------------------

  /** A four-character colour `#rgb` becomes `#rrggbb`; anything else is kept. */
  function NormalizeHex(s: string): (r: string)
    ensures |s| != 4 ==> r == s
    ensures |s| == 4 ==>
      |r| == 7 && r[0] == '#' && forall i :: 1 <= i < 7 ==> r[i] == s[(i + 1) / 2]
  {
    if |s| == 4 then ['#', s[1], s[1], s[2], s[2], s[3], s[3]] else s
  }

  /** A valid colour normalises to a valid six-digit colour. */
  lemma NormalizeHexValid(s: string)
    requires IsValidHex(s)
    ensures |NormalizeHex(s)| == 7 && IsValidHex(NormalizeHex(s))
  {
    IsValidHexIff(s);
    IsValidHexIff(NormalizeHex(s));
  }

  lemma NormalizeHexIdempotent(s: string)
    ensures NormalizeHex(NormalizeHex(s)) == NormalizeHex(s)
  {
  }

  // ---------------------------------------------------------------------
  // hexToRgba
  // ---------------------------------------------------------------------

  /** A colour channel as JavaScript computes it: a number or NaN. */
  datatype Channel = Num(value: int) | NaN

  datatype Rgb = Rgb(r: Channel, g: Channel, b: Channel)

  /** A stop's opacity: the opacity box holds a whole percentage and the
      stop stores it divided by 100; an empty box gives NaN. */
  datatype Opacity = Percent(hundredths: int) | NotANumber

  /** `parseInt(c1 + c2, 16)` on a two-character string: leading white space
      is skipped, one sign is allowed, a `0x` or `0X` prefix is removed, and
      the longest run of hex digits that follows is read; none at all is NaN. */
  function ParseHexPair(c1: char, c2: char): (v: Channel)
    ensures v.Num? ==> -15 <= v.value <= 255
  {
    if IsJsWhitespace(c1) || c1 == '+' then
      (if IsHexDigit(c2) then Num(HexDigitValue(c2)) else NaN)
    else if c1 == '-' then
      (if IsHexDigit(c2) then Num(-(HexDigitValue(c2) as int)) else NaN)
    else if c1 == '0' && (c2 == 'x' || c2 == 'X') then NaN
    else if IsHexDigit(c1) then
      (if IsHexDigit(c2) then Num(16 * HexDigitValue(c1) + HexDigitValue(c2))
       else Num(HexDigitValue(c1)))
    else NaN
  }

  /** Two hex digits read as one byte, most significant digit first. */
  lemma ParseHexPairDigits(c1: char, c2: char)
    requires IsHexDigit(c1) && IsHexDigit(c2)
    ensures ParseHexPair(c1, c2) == Num(16 * HexDigitValue(c1) + HexDigitValue(c2))
    ensures 0 <= ParseHexPair(c1, c2).value <= 255
  {
    assert !IsJsWhitespace(c1) && c1 != '+' && c1 != '-';
  }

  /** The three channels read from a colour string: pairs of doubled digits
      for length 4, consecutive pairs for length 7, black otherwise. */
  function Channels(hex: string): (c: Rgb)
    ensures |hex| != 4 && |hex| != 7 ==> c == Rgb(Num(0), Num(0), Num(0))
  {
    if |hex| == 4 then
      Rgb(ParseHexPair(hex[1], hex[1]), ParseHexPair(hex[2], hex[2]), ParseHexPair(hex[3], hex[3]))
    else if |hex| == 7 then
      Rgb(ParseHexPair(hex[1], hex[2]), ParseHexPair(hex[3], hex[4]), ParseHexPair(hex[5], hex[6]))
    else
      Rgb(Num(0), Num(0), Num(0))
  }

  function ChannelText(c: Channel): string
  {
    match c
    case Num(v) => IntToString(v)
    case NaN => "NaN"
  }

  /** The fractional digits of a number of hundredths, without trailing zeros. */
  function FractionText(f: nat): string
    requires f < 100
  {
    if f == 0 then ""
    else if f % 10 == 0 then "." + [DigitChar(f / 10)]
    else "." + [DigitChar(f / 10), DigitChar(f % 10)]
  }

  /** How JavaScript writes `p / 100`: the shortest decimal, no trailing zeros. */
  function OpacityText(o: Opacity): string
  {
    match o
    case NotANumber => "NaN"
    case Percent(p) =>
      var m := if p < 0 then -p else p;
      (if p < 0 then "-" else "") + NatToString(m / 100) + FractionText(m % 100)
  }

  /** A whole opacity prints as a plain integer, so full opacity prints as `1`. */
  lemma OpacityTextWhole(k: int)
    ensures OpacityText(Percent(100 * k)) == IntToString(k)
  {
    var p := 100 * k;
    var m := if p < 0 then -p else p;
    assert m / 100 == (if k < 0 then -k else k) && m % 100 == 0;
  }

  /** What goes between `rgba(` and the end: `r, g, b, o)`. */
  function RgbaArguments(c: Rgb, o: Opacity): string
  {
    ChannelText(c.r) + ", " + ChannelText(c.g) + ", " + ChannelText(c.b) + ", " + OpacityText(o) + ")"
  }

  function RgbaText(c: Rgb, o: Opacity): string
  {
    "rgba(" + RgbaArguments(c, o)
  }

  /** hexToRgba(hex, opacity). */
  function HexToRgba(hex: string, o: Opacity): string
  {
    RgbaText(Channels(hex), o)
  }

  /** A three-digit colour and its six-digit expansion give the same rgba
      text; this holds for every four-character string, valid or not. */
  lemma HexToRgbaNormalized(hex: string, o: Opacity)
    requires |hex| == 4
    ensures HexToRgba(hex, o) == HexToRgba(NormalizeHex(hex), o)
  {
    var n := NormalizeHex(hex);
    assert n[1] == n[2] == hex[1] && n[3] == n[4] == hex[2] && n[5] == n[6] == hex[3];
  }

  /** Every channel of a valid colour is a byte, and a six-digit colour's
      channels are its three digit pairs read in base 16. */
  lemma ValidHexChannels(hex: string)
    requires IsValidHex(hex)
    ensures (|hex| == 4 || |hex| == 7) && AllHexAfterHash(hex)
    ensures var c := Channels(hex);
      c.r.Num? && c.g.Num? && c.b.Num?
      && 0 <= c.r.value <= 255 && 0 <= c.g.value <= 255 && 0 <= c.b.value <= 255
    ensures |hex| == 7 ==> Channels(hex) == Rgb(
      Num(16 * HexDigitValue(hex[1]) + HexDigitValue(hex[2])),
      Num(16 * HexDigitValue(hex[3]) + HexDigitValue(hex[4])),
      Num(16 * HexDigitValue(hex[5]) + HexDigitValue(hex[6])))
  {
    IsValidHexIff(hex);
    if |hex| == 4 {
      ParseHexPairDigits(hex[1], hex[1]);
      ParseHexPairDigits(hex[2], hex[2]);
      ParseHexPairDigits(hex[3], hex[3]);
    } else {
      ParseHexPairDigits(hex[1], hex[2]);
      ParseHexPairDigits(hex[3], hex[4]);
      ParseHexPairDigits(hex[5], hex[6]);
    }
  }

  // ---------------------------------------------------------------------
  // getRandomColor, with the random draws passed in
  // ---------------------------------------------------------------------

  /** Builds `#` followed by six characters of `0123456789ABCDEF`, the i-th
      chosen by `draws[i]` (the source draws them from Math.random). */
  method RandomColor(draws: seq<nat>) returns (color: string)
    requires |draws| == 6 && forall i :: 0 <= i < 6 ==> draws[i] < 16
    ensures IsValidHex(color) && |color| == 7
    ensures forall i :: 0 <= i < 6 ==> color[i + 1] == "0123456789ABCDEF"[draws[i]]
  {
    var letters := "0123456789ABCDEF";
    color := "#";
    var i := 0;
    while i < 6
      invariant 0 <= i <= 6
      invariant |color| == i + 1 && color[0] == '#'
      invariant forall k :: 0 <= k < i ==> color[k + 1] == letters[draws[k]]
      invariant AllHexAfterHash(color)
    {
      color := color + [letters[draws[i]]];
      i := i + 1;
    }
    IsValidHexIff(color);
  }
}
