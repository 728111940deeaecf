/** Colours of the export background: `parse_hex_color` and the choice of a
    gradient or wallpaper preset by index in `background_source`. The filter
    expressions that paint the colours are not part of this model. */
module Colors {
  import opened Text

  datatype Rgb = Rgb(r: int, g: int, b: int)

  predicate InByteRange(c: Rgb)
  {
    0 <= c.r < 256 && 0 <= c.g < 256 && 0 <= c.b < 256
  }

  /** A colour whose three components are bytes, as every preset colour is. */
  type ByteRgb = c: Rgb | InByteRange(c) witness Rgb(0, 0, 0)

  /** `s.trim_start_matches('#')`: every leading `'#'` is dropped. */
  function TrimLeadingHashes(s: string): string
  {
    if s != [] && s[0] == '#' then TrimLeadingHashes(s[1..]) else s
  }

  predicate AllHashes(s: string)
  {
    forall i :: 0 <= i < |s| ==> s[i] == '#'
  }

  /** What is left is a suffix that does not start with `'#'`, and all that
      was dropped is `'#'`s. */
  lemma {:induction false} TrimLeadingHashesProperties(s: string)
    ensures var r := TrimLeadingHashes(s);
      && |r| <= |s| && r == s[|s| - |r|..]
      && (r == [] || r[0] != '#')
      && AllHashes(s[..|s| - |r|])
  {
    if s != [] && s[0] == '#' {
      TrimLeadingHashesProperties(s[1..]);
      var r := TrimLeadingHashes(s);
      assert s[..|s| - |r|] == [s[0]] + s[1..][..|s| - 1 - |r|];
    }
  }

  /** A digit of base 16, in either case, as `from_str_radix` accepts it. */
  predicate IsHexDigit(c: char)
  {
    ('0' <= c <= '9') || ('a' <= c <= 'f') || ('A' <= c <= 'F')
  }

  function HexValue(c: char): (v: nat)
    requires IsHexDigit(c)
    ensures v < 16
  {
    if '0' <= c <= '9' then (c as int) - ('0' as int)
    else if 'a' <= c <= 'f' then (c as int) - ('a' as int) + 10
    else (c as int) - ('A' as int) + 10
  }

  /** `i32::from_str_radix(pair, 16).unwrap_or(0)` on a two-character slice.
      Rust accepts a leading sign, so besides two hex digits a `'+'` or `'-'`
      followed by one digit is read too (`"-f"` is -15); anything else is 0. */
  function HexPairValue(pair: string): (v: int)
    requires |pair| == 2
    ensures -15 <= v < 256
    ensures IsHexDigit(pair[0]) && IsHexDigit(pair[1]) ==> v == 16 * HexValue(pair[0]) + HexValue(pair[1])
    ensures pair[0] == '+' && IsHexDigit(pair[1]) ==> v == HexValue(pair[1])
    ensures pair[0] == '-' && IsHexDigit(pair[1]) ==> v == -(HexValue(pair[1]) as int)
    ensures !IsHexDigit(pair[1]) || (!IsHexDigit(pair[0]) && pair[0] != '+' && pair[0] != '-') ==> v == 0
    ensures v < 0 ==> pair[0] == '-'
  {
    if IsHexDigit(pair[0]) && IsHexDigit(pair[1]) then 16 * HexValue(pair[0]) + HexValue(pair[1])
    else if pair[0] == '+' && IsHexDigit(pair[1]) then HexValue(pair[1])
    else if pair[0] == '-' && IsHexDigit(pair[1]) then 0 - (HexValue(pair[1]) as int)
    else 0
  }

  /** `parse_hex_color`: after the leading `'#'`s, exactly six characters are
      read as three two-character components; any other length gives black. */
  function ParseHexColor(value: string): (c: Rgb)
    ensures |TrimLeadingHashes(value)| != 6 ==> c == Rgb(0, 0, 0)
    ensures -15 <= c.r < 256 && -15 <= c.g < 256 && -15 <= c.b < 256
  {
    var hex := TrimLeadingHashes(value);
    if |hex| != 6 then Rgb(0, 0, 0)
    else Rgb(HexPairValue(hex[0..2]), HexPairValue(hex[2..4]), HexPairValue(hex[4..6]))
  }

  function HexDigit(d: nat): (c: char)
    requires d < 16
    ensures IsHexDigit(c) && HexValue(c) == d
  {
    if d < 10 then ('0' as int + d) as char else ('a' as int + d - 10) as char
  }

  /** `#rrggbb` in lower-case hex, the form of the preset colours. */
  function FormatHexColor(c: Rgb): (s: string)
    requires InByteRange(c)
    ensures |s| == 7 && s[0] == '#'
  {
    "#" + [HexDigit(c.r / 16), HexDigit(c.r % 16), HexDigit(c.g / 16), HexDigit(c.g % 16), HexDigit(c.b / 16), HexDigit(c.b % 16)]
  }

  /** A `#` followed by six hex digits. */
  predicate WellFormedHexColor(s: string)
  {
    |s| == 7 && s[0] == '#' && forall i :: 1 <= i < 7 ==> IsHexDigit(s[i])
  }

  /** Parsing undoes formatting: every byte-range colour comes back. */
  lemma ParseFormatRoundTrip(c: Rgb)
    requires InByteRange(c)
    ensures WellFormedHexColor(FormatHexColor(c))
    ensures ParseHexColor(FormatHexColor(c)) == c
  {
    var s := FormatHexColor(c);
    assert TrimLeadingHashes(s) == s[1..];
  }

  /** A well-formed colour parses to byte-range components, and formatting
      it again gives the same colour up to letter case. */
  lemma WellFormedParsesInRange(s: string)
    requires WellFormedHexColor(s)
    ensures InByteRange(ParseHexColor(s))
    ensures ParseHexColor(FormatHexColor(ParseHexColor(s))) == ParseHexColor(s)
  {
    var hex := s[1..];
    assert TrimLeadingHashes(s) == hex by {
      assert TrimLeadingHashes(s) == TrimLeadingHashes(hex);
    }
    assert IsHexDigit(hex[0..2][0]) && IsHexDigit(hex[0..2][1]);
    assert IsHexDigit(hex[2..4][0]) && IsHexDigit(hex[2..4][1]);
    assert IsHexDigit(hex[4..6][0]) && IsHexDigit(hex[4..6][1]);
    ParseFormatRoundTrip(ParseHexColor(s));
  }

  /** Because `from_str_radix` takes a sign, a six-character value that is
      not six hex digits can still yield components, negative ones included. */
  lemma SignedComponentsAccepted()
    ensures ParseHexColor("#-f+a00") == Rgb(-15, 10, 0)
  {
    var hex := "-f+a00";
    assert TrimLeadingHashes("#-f+a00") == TrimLeadingHashes(hex) == hex;
    assert hex[0..2] == "-f" && hex[2..4] == "+a" && hex[4..6] == "00";
    assert !IsHexDigit('-') && !IsHexDigit('+');
    assert HexPairValue("-f") == -15;
    assert HexPairValue("+a") == 10;
  }

  /** The three colour stops of a gradient preset (its mid-stop position is
      a float and not part of this model). The table holds each stop as the
      lower-case `#rrggbb` string `FormatHexColor` writes for it, so the
      stops are kept here as the colours those strings denote. */
  datatype GradientPreset = GradientPreset(start: ByteRgb, mid: ByteRgb, end: ByteRgb)

  datatype WallpaperPreset = WallpaperPreset(start: ByteRgb, end: ByteRgb)

  /** `#6ee7ff #a855f7 #f97316`, `#0f172a #1e40af #38bdf8`,
      `#111827 #7c3aed #ec4899`, `#0b1020 #0f766e #22d3ee`. */
  const Gradients: seq<GradientPreset> := [
    GradientPreset(Rgb(0x6e, 0xe7, 0xff), Rgb(0xa8, 0x55, 0xf7), Rgb(0xf9, 0x73, 0x16)),
    GradientPreset(Rgb(0x0f, 0x17, 0x2a), Rgb(0x1e, 0x40, 0xaf), Rgb(0x38, 0xbd, 0xf8)),
    GradientPreset(Rgb(0x11, 0x18, 0x27), Rgb(0x7c, 0x3a, 0xed), Rgb(0xec, 0x48, 0x99)),
    GradientPreset(Rgb(0x0b, 0x10, 0x20), Rgb(0x0f, 0x76, 0x6e), Rgb(0x22, 0xd3, 0xee))]

  /** `#0f172a #1f2937`, `#0b1020 #1f1b3a`, `#1f2937 #0f172a`,
      `#0a0f1f #0b1020`. */
  const Wallpapers: seq<WallpaperPreset> := [
    WallpaperPreset(Rgb(0x0f, 0x17, 0x2a), Rgb(0x1f, 0x29, 0x37)),
    WallpaperPreset(Rgb(0x0b, 0x10, 0x20), Rgb(0x1f, 0x1b, 0x3a)),
    WallpaperPreset(Rgb(0x1f, 0x29, 0x37), Rgb(0x0f, 0x17, 0x2a)),
    WallpaperPreset(Rgb(0x0a, 0x0f, 0x1f), Rgb(0x0b, 0x10, 0x20))]

  /** The table's strings are these colours written as `#rrggbb`: the first
      gradient stop is the string `#6ee7ff`. */
  lemma FirstGradientString()
    ensures FormatHexColor(Gradients[0].start) == "#6ee7ff"
  {
  }

  /** One stop as `background_source` reads it: the table's string parsed
      back by `parse_hex_color`, which gives the colour it was written from. */
  function PaintedStop(c: ByteRgb): (p: ByteRgb)
    ensures p == c
  {
    ParseFormatRoundTrip(c);
    ParseHexColor(FormatHexColor(c))
  }

  /** The two stops of a wallpaper preset, each string parsed back. */
  function WallpaperStops(w: WallpaperPreset): (stops: seq<ByteRgb>)
    ensures stops == [w.start, w.end]
  {
    [PaintedStop(w.start), PaintedStop(w.end)]
  }

  /** The three stops of a gradient preset, each string parsed back. */
  function GradientStops(g: GradientPreset): (stops: seq<ByteRgb>)
    ensures stops == [g.start, g.mid, g.end]
  {
    [PaintedStop(g.start), PaintedStop(g.mid), PaintedStop(g.end)]
  }

  /** The colour stops `background_source` paints from the preset tables
      `wallpapers` and `gradients`: the `"wallpaper"` type parses the two
      strings of wallpaper preset `preset % |wallpapers|`, and every other
      type the three strings of gradient preset `preset % |gradients|`. Every
      stop comes out as exactly the table's colour, so inside the byte range. */
  function BackgroundStops(wallpapers: seq<WallpaperPreset>, gradients: seq<GradientPreset>,
                           backgroundType: string, preset: nat): (stops: seq<ByteRgb>)
    requires |wallpapers| > 0 && |gradients| > 0
    ensures backgroundType == "wallpaper" ==>
      var w := wallpapers[preset % |wallpapers|];
      stops == [w.start, w.end]
    ensures backgroundType != "wallpaper" ==>
      var g := gradients[preset % |gradients|];
      stops == [g.start, g.mid, g.end]
  {
    if backgroundType == "wallpaper" then WallpaperStops(wallpapers[preset % |wallpapers|])
    else GradientStops(gradients[preset % |gradients|])
  }

  /** The preset index wraps around: with the four-entry tables of
      `background_source`, presets four apart paint the same. */
  lemma {:induction false} PresetWrapAround(backgroundType: string, preset: nat)
    ensures BackgroundStops(Wallpapers, Gradients, backgroundType, preset)
         == BackgroundStops(Wallpapers, Gradients, backgroundType, preset % 4)
    ensures BackgroundStops(Wallpapers, Gradients, backgroundType, preset + 4)
         == BackgroundStops(Wallpapers, Gradients, backgroundType, preset)
  {
    assert |Wallpapers| == 4 && |Gradients| == 4;
    assert (preset + 4) % 4 == preset % 4;
    assert (preset % 4) % 4 == preset % 4;
  }
}
