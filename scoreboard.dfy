/**
 * The broadcast scoreboard overlay: colour parsing and shading, the arithmetic that lays the
 * bar out on the frame, the clock and half labels, the renderer's single-entry cache keyed on
 * the whole state, and the alpha bounding box that limits compositing onto a video frame.
 * What Pillow draws and how wide it measures a team name are parameters.
 */
module Scoreboard {
  import opened Wrappers
  import opened Arith
  import opened Text
  import opened Image

  // ----- colours -------------------------------------------------------------------------

  /** A colour as hex_to_rgb returns it (int() on hex text may give a negative channel). */
  datatype Rgb = Rgb(r: int, g: int, b: int)

  predicate IsColour(c: Rgb)
  {
    0 <= c.r < 256 && 0 <= c.g < 256 && 0 <= c.b < 256
  }

  /** str.lstrip("#"): every leading '#' goes. */
  function LStripHash(s: string): (r: string)
    ensures |r| <= |s| && r == s[|s| - |r|..]
    ensures |r| > 0 ==> r[0] != '#'
    ensures forall i :: 0 <= i < |s| - |r| ==> s[i] == '#'
  {
    if |s| > 0 && s[0] == '#' then LStripHash(s[1..]) else s
  }

  /** int(text[i:i+2], 16); None stands for the ValueError. */
  function HexByte(text: string, i: nat): Option<int>
  {
    ParseInt(PySlice(text, i, i + 2), 16)
  }

  /**
   * hex_to_rgb: after the leading '#' characters, the pairs at 0, 2 and 4 are read as
   * hexadecimal. A pair that does not parse is a ValueError, so at least five characters
   * must remain; a channel can only come out between -15 ("-F") and 255.
   */
  function HexToRgb(hex: string): (r: Result<Rgb>)
    ensures r.Ok? ==> |LStripHash(hex)| >= 5
    ensures r.Ok? ==> -15 <= r.value.r <= 255 && -15 <= r.value.g <= 255 && -15 <= r.value.b <= 255
  {
    var body := LStripHash(hex);
    HexByteBounds(body, 0);
    HexByteBounds(body, 2);
    HexByteBounds(body, 4);
    match (HexByte(body, 0), HexByte(body, 2), HexByte(body, 4))
    case (Some(r), Some(g), Some(b)) => Ok(Rgb(r, g, b))
    case _ => Err(ValueError)
  }

  lemma {:induction false} DigitsBelow(s: string)
    requires |s| <= 2 && AllDigits(s, 16)
    ensures |s| <= 1 ==> DigitsValue(s, 16) <= 15
    ensures DigitsValue(s, 16) <= 255
  {
    if |s| > 0 {
      DigitsBelow(s[..|s| - 1]);
    }
  }

  lemma HexByteBounds(text: string, i: nat)
    ensures HexByte(text, i).Some? ==> i < |text| && -15 <= HexByte(text, i).value <= 255
  {
    var t := PySlice(text, i, i + 2);
    assert |t| <= 2 && (i >= |text| ==> t == "");
    var (neg, body) := SignOf(Strip(t));
    if |body| > 0 && AllDigits(body, 16) {
      DigitsBelow(body);
    }
  }

  function HexDigit(d: int): char
    requires 0 <= d < 16
  {
    if d < 10 then ('0' as int + d) as char else ('A' as int + d - 10) as char
  }

  /** Two upper-case hexadecimal digits of a channel value. */
  function HexPair(n: int): (s: string)
    requires 0 <= n < 256
    ensures |s| == 2
  {
    [HexDigit(n / 16), HexDigit(n % 16)]
  }

  /** The "#RRGGBB" spelling of a colour. */
  function RgbToHex(c: Rgb): (s: string)
    requires IsColour(c)
    ensures |s| == 7 && s[0] == '#'
  {
    "#" + HexPair(c.r) + HexPair(c.g) + HexPair(c.b)
  }

  lemma HexPairParses(n: int)
    requires 0 <= n < 256
    ensures ParseInt(HexPair(n), 16) == Some(n)
  {
    var t := HexPair(n);
    NoSpaceEnds(t);
    assert SignOf(t) == (false, t);
    assert AllDigits(t, 16);
    assert t[..1][..0] == "";
    assert DigitsValue(t, 16) == DigitsValue(t[..1], 16) * 16 + n % 16;
  }

  /** Parsing the "#RRGGBB" text of a colour gives the colour back, with or without the '#'. */
  lemma HexRoundTrip(c: Rgb)
    requires IsColour(c)
    ensures HexToRgb(RgbToHex(c)) == Ok(c)
    ensures HexToRgb(RgbToHex(c)[1..]) == Ok(c)
  {
    var s := RgbToHex(c);
    var body := s[1..];
    assert body == HexPair(c.r) + HexPair(c.g) + HexPair(c.b);
    assert body[0] != '#';
    assert LStripHash(s) == body by {
      assert s[1..][0] != '#';
    }
    assert LStripHash(body) == body;
    assert PySlice(body, 0, 2) == HexPair(c.r);
    assert PySlice(body, 2, 4) == HexPair(c.g);
    assert PySlice(body, 4, 6) == HexPair(c.b);
    HexPairParses(c.r);
    HexPairParses(c.g);
    HexPairParses(c.b);
  }

  /** The default home colour: "#1E5E3A" and "1E5E3A" both read as (30, 94, 58). */
  lemma HomeColourReads()
    ensures HexToRgb("#1E5E3A") == Ok(Rgb(30, 94, 58))
    ensures HexToRgb("1E5E3A") == Ok(Rgb(30, 94, 58))
  {
    HomeColourSpelling();
    HexRoundTrip(Rgb(30, 94, 58));
  }

  lemma HomeColourSpelling()
    ensures RgbToHex(Rgb(30, 94, 58)) == "#1E5E3A" && RgbToHex(Rgb(30, 94, 58))[1..] == "1E5E3A"
  {
  }

  /** darken_color on one channel: int(c * factor), never below 0. */
  function DarkenChannel(c: int, factor: real): int
  {
    Max(0, Trunc(c as real * factor))
  }

  function DarkenColor(c: Rgb, factor: real): (d: Rgb)
    ensures d.r >= 0 && d.g >= 0 && d.b >= 0
  {
    Rgb(DarkenChannel(c.r, factor), DarkenChannel(c.g, factor), DarkenChannel(c.b, factor))
  }

  lemma DarkenChannelBounds(c: int, factor: real)
    requires c >= 0 && 0.0 <= factor <= 1.0
    ensures 0 <= DarkenChannel(c, factor) <= c
    ensures factor == 1.0 ==> DarkenChannel(c, factor) == c
  {
    MulMono(factor, 1.0, c as real + 1.0);
    assert c as real * factor <= c as real;
  }

  /**
   * A factor in [0, 1] makes no channel of a valid colour brighter, and a factor of 1 leaves
   * it alone; (100, 200, 50) at 0.5 becomes (50, 100, 25).
   */
  lemma DarkenKeepsColour(c: Rgb, factor: real)
    requires IsColour(c) && 0.0 <= factor <= 1.0
    ensures var d := DarkenColor(c, factor);
      IsColour(d) && d.r <= c.r && d.g <= c.g && d.b <= c.b
    ensures factor == 1.0 ==> DarkenColor(c, factor) == c
    ensures DarkenColor(Rgb(100, 200, 50), 0.5) == Rgb(50, 100, 25)
  {
    DarkenChannelBounds(c.r, factor);
    DarkenChannelBounds(c.g, factor);
    DarkenChannelBounds(c.b, factor);
  }

  /** blend_color on one channel: int(o * alpha + b * (1 - alpha)). */
  function BlendChannel(base: int, over: int, alpha: real): int
  {
    Trunc(over as real * alpha + base as real * (1.0 - alpha))
  }

  function BlendColor(base: Rgb, over: Rgb, alpha: real): Rgb
  {
    Rgb(BlendChannel(base.r, over.r, alpha), BlendChannel(base.g, over.g, alpha),
        BlendChannel(base.b, over.b, alpha))
  }

  lemma BlendChannelBetween(base: int, over: int, alpha: real)
    requires base >= 0 && over >= 0 && 0.0 <= alpha <= 1.0
    ensures Min(base, over) <= BlendChannel(base, over, alpha) <= Max(base, over)
    ensures alpha == 0.0 ==> BlendChannel(base, over, alpha) == base
    ensures alpha == 1.0 ==> BlendChannel(base, over, alpha) == over
  {
    MixBounds(base, over, alpha);
  }

  /** A blend of two valid colours is a valid colour between them, channel by channel. */
  lemma BlendStaysBetween(base: Rgb, over: Rgb, alpha: real)
    requires IsColour(base) && IsColour(over) && 0.0 <= alpha <= 1.0
    ensures var m := BlendColor(base, over, alpha);
      IsColour(m)
      && Min(base.r, over.r) <= m.r <= Max(base.r, over.r)
      && Min(base.g, over.g) <= m.g <= Max(base.g, over.g)
      && Min(base.b, over.b) <= m.b <= Max(base.b, over.b)
    ensures alpha == 0.0 ==> BlendColor(base, over, alpha) == base
  {
    BlendChannelBetween(base.r, over.r, alpha);
    BlendChannelBetween(base.g, over.g, alpha);
    BlendChannelBetween(base.b, over.b, alpha);
  }

  // ----- state and layout ----------------------------------------------------------------

  /** ScoreboardState; all eleven fields form the renderer's cache key. */
  datatype State = State(homeTeam: string, awayTeam: string, homeScore: int, awayScore: int,
                         clockSeconds: int, half: int, visible: bool, homeColor: string,
                         awayColor: string, position: string, offset: int)

  const DefaultState := State("HOME", "AWAY", 0, 0, 0, 1, true, "#1E5E3A", "#3A1E1E", "bottom", 50)

  const BarHeight := 60
  const BarRadius := 8
  const MinBarWidth := 600
  const LogoSectionWidth := 45 + 10
  const NamePadding := 25
  const ScoreSectionWidth := 60
  const TimerSectionWidth := 100

  /** Where the bar goes on the frame and where its home, timer and away sections start. */
  datatype Layout = Layout(homeSectionWidth: int, awaySectionWidth: int, barWidth: int,
                           barX: int, barY: int, timerX: int, timerEndX: int)

  /**
   * The bar is at least 600 wide and wide enough for both team sections and the timer,
   * centred on the frame with any odd pixel to the right, and sits `offset` pixels from the
   * top edge for "top" and from the bottom edge otherwise. The timer follows the home
   * section and the away section fits between the timer and the end of the bar.
   */
  function BarLayout(frameWidth: int, frameHeight: int, homeNameWidth: int, awayNameWidth: int,
                     position: string, offset: int): (l: Layout)
    ensures l.barWidth >= MinBarWidth
    ensures l.barWidth >= l.homeSectionWidth + TimerSectionWidth + l.awaySectionWidth
    ensures l.barWidth == MinBarWidth
         || l.barWidth == l.homeSectionWidth + TimerSectionWidth + l.awaySectionWidth
    ensures 0 <= (frameWidth - l.barWidth) - 2 * l.barX <= 1
    ensures position == "top" ==> l.barY == offset
    ensures position != "top" ==> frameHeight - (l.barY + BarHeight) == offset
    ensures l.timerX == l.homeSectionWidth && l.timerEndX == l.timerX + TimerSectionWidth
    ensures l.timerEndX + l.awaySectionWidth <= l.barWidth
    ensures homeNameWidth >= 0 ==> l.timerX >= LogoSectionWidth + ScoreSectionWidth
  {
    var home := LogoSectionWidth + homeNameWidth + NamePadding + ScoreSectionWidth;
    var away := ScoreSectionWidth + awayNameWidth + NamePadding + LogoSectionWidth;
    var width := Max(MinBarWidth, home + TimerSectionWidth + away);
    var y := if position == "top" then offset else frameHeight - BarHeight - offset;
    Layout(home, away, width, (frameWidth - width) / 2, y, home, home + TimerSectionWidth)
  }

  /**
   * When the bar is no wider than the frame and the offset leaves room for its height, the
   * whole bar lies inside the frame, whichever edge it is placed against.
   */
  lemma BarInsideFrame(frameWidth: int, frameHeight: int, homeNameWidth: int, awayNameWidth: int,
                       position: string, offset: int)
    requires BarLayout(frameWidth, frameHeight, homeNameWidth, awayNameWidth, position, offset).barWidth
             <= frameWidth
    requires 0 <= offset && offset + BarHeight <= frameHeight
    ensures var l := BarLayout(frameWidth, frameHeight, homeNameWidth, awayNameWidth, position, offset);
      0 <= l.barX && l.barX + l.barWidth <= frameWidth && 0 <= l.barY && l.barY + BarHeight <= frameHeight
  {
  }

  // ----- clock and half labels -----------------------------------------------------------

  /** f"{m:02d}:{s:02d}" with m = clock_seconds // 60 and s = clock_seconds % 60. */
  function ClockText(clockSeconds: int): string
  {
    Pad2(clockSeconds / 60) + ":" + Pad2(clockSeconds % 60)
  }

  /**
   * The clock text reads back as the clock: split at ':', the minutes times 60 plus the
   * seconds give clock_seconds, with the seconds in [0, 60).
   */
  lemma ClockTextReadsBack(clockSeconds: int)
    ensures var p := Split(ClockText(clockSeconds), ':');
      |p| == 2 && ParseInt(p[0], 10).Some? && ParseInt(p[1], 10).Some?
      && 0 <= ParseInt(p[1], 10).value < 60
      && ParseInt(p[0], 10).value * 60 + ParseInt(p[1], 10).value == clockSeconds
  {
    var m := clockSeconds / 60;
    var s := clockSeconds % 60;
    var parts := [Pad2(m), Pad2(s)];
    NoColonIn(m);
    NoColonIn(s);
    assert Join(parts, ':') == ClockText(clockSeconds);
    SplitJoin(parts, ':');
    Pad2Parses(m);
    Pad2Parses(s);
  }

  lemma NoColonIn(n: int)
    ensures ':' !in Pad2(n)
  {
    var t := if n < 0 then -n else n;
    NatToStringDigits(t);
    var d := NatToString(t);
    assert forall i :: 0 <= i < |d| ==> d[i] != ':' by {
      forall i | 0 <= i < |d| ensures d[i] != ':' {
        assert IsDigit(d[i], 10);
      }
    }
  }

  /** Below 100 minutes the clock text is exactly "MM:SS". */
  lemma ClockTextLength(clockSeconds: int)
    requires 0 <= clockSeconds < 6000
    ensures |ClockText(clockSeconds)| == 5
  {
    Pad2Length(clockSeconds / 60);
    Pad2Length(clockSeconds % 60);
  }

  /** The half indicator: "1ST HALF" exactly when half is 1. */
  function HalfText(half: int): (t: string)
    ensures t == "1ST HALF" <==> half == 1
    ensures t == "1ST HALF" || t == "2ND HALF"
  {
    if half == 1 then "1ST HALF" else "2ND HALF"
  }

  // ----- images --------------------------------------------------------------------------

  datatype Rgba = Rgba(r: Byte, g: Byte, b: Byte, a: Byte)

  const Transparent := Rgba(0, 0, 0, 0)

  predicate IsRaster(p: seq<seq<Rgba>>, height: nat, width: nat)
  {
    |p| == height && forall y :: 0 <= y < height ==> |p[y]| == width
  }

  /** Image.new("RGBA", (width, height), (0, 0, 0, 0)). */
  function Blank(height: nat, width: nat): (p: seq<seq<Rgba>>)
    ensures IsRaster(p, height, width)
    ensures forall y, x :: 0 <= y < height && 0 <= x < width ==> p[y][x] == Transparent
  {
    seq(height, _ => seq(width, _ => Transparent))
  }

  /**
   * What Pillow draws for a visible state with the given layout and team colours: the pixel
   * at (row, column) of the frame-sized canvas once the bar is pasted on it.
   */
  type Painter = (State, Layout, Rgb, Rgb, int, int) -> Rgba

  function Painted(paint: Painter, s: State, l: Layout, home: Rgb, away: Rgb,
                   height: nat, width: nat): (p: seq<seq<Rgba>>)
    ensures IsRaster(p, height, width)
  {
    seq(height, y => seq(width, x => paint(s, l, home, away, y, x)))
  }

  /** A Pillow RGBA image; the cache hands back the same object, so it has identity. */
  class Overlay {
    const height: nat
    const width: nat
    const pixels: seq<seq<Rgba>>

    constructor (height: nat, width: nat, pixels: seq<seq<Rgba>>)
      requires IsRaster(pixels, height, width)
      ensures this.height == height && this.width == width && this.pixels == pixels
    {
      this.height := height;
      this.width := width;
      this.pixels := pixels;
    }
  }

  /** Both team colours, home first, as hex_to_rgb reads them; either failing is a ValueError. */
  function Colours(s: State): (r: Result<(Rgb, Rgb)>)
  {
    match (HexToRgb(s.homeColor), HexToRgb(s.awayColor))
    case (Ok(h), Ok(a)) => Ok((h, a))
    case _ => Err(ValueError)
  }

  /** The bar layout for a state; nameWidth is the width Pillow measures for an upper-cased name. */
  function LayoutOf(s: State, frameWidth: int, frameHeight: int, nameWidth: string -> int): Layout
  {
    BarLayout(frameWidth, frameHeight, nameWidth(s.homeTeam), nameWidth(s.awayTeam), s.position, s.offset)
  }

  // ----- the renderer --------------------------------------------------------------------

  class Renderer {
    const frameWidth: nat
    const frameHeight: nat
    var cacheState: Option<State>
    var cacheImage: Overlay?

    /** The cache holds a frame-sized image exactly when it holds a key. */
    predicate Valid()
      reads this
    {
      (cacheState.Some? <==> cacheImage != null)
      && (cacheImage != null ==>
            cacheImage.height == frameHeight && cacheImage.width == frameWidth
            && IsRaster(cacheImage.pixels, frameHeight, frameWidth))
    }

    /** cache_key == self._cache_state and self._cache_image is not None. */
    predicate CacheHit(s: State)
      reads this
    {
      cacheState == Some(s) && cacheImage != null
    }

    /** The pixels render would produce for a visible state whose colours parse. */
    function Shown(s: State, nameWidth: string -> int, paint: Painter): (p: seq<seq<Rgba>>)
      requires Valid() && (CacheHit(s) || Colours(s).Ok?)
      reads this
      ensures IsRaster(p, frameHeight, frameWidth)
    {
      if CacheHit(s) then cacheImage.pixels
      else
        var (home, away) := Colours(s).value;
        Painted(paint, s, LayoutOf(s, frameWidth, frameHeight, nameWidth), home, away,
                frameHeight, frameWidth)
    }

    constructor (width: nat, height: nat)
      ensures frameWidth == width && frameHeight == height
      ensures cacheState == None && cacheImage == null
      ensures Valid()
    {
      frameWidth := width;
      frameHeight := height;
      cacheState := None;
      cacheImage := null;
    }

    /**
     * render: an invisible state gives a fresh transparent frame-sized image and leaves the
     * cache alone; a visible state equal to the cached key gives back the cached object;
     * otherwise the colours are parsed (a ValueError leaves the cache alone), the bar is
     * drawn on a fresh canvas and that state and image replace the cache.
     */
    method Render(s: State, nameWidth: string -> int, paint: Painter) returns (r: Result<Overlay>)
      requires Valid()
      modifies this
      ensures Valid()
      ensures !s.visible ==>
        r.Ok? && fresh(r.value) && r.value.pixels == Blank(frameHeight, frameWidth)
        && r.value.height == frameHeight && r.value.width == frameWidth && unchanged(this)
      ensures s.visible && old(CacheHit(s)) ==> r == Ok(old(cacheImage)) && unchanged(this)
      ensures s.visible && !old(CacheHit(s)) && Colours(s).Err? ==>
        r == Err(ValueError) && unchanged(this)
      ensures s.visible && !old(CacheHit(s)) && Colours(s).Ok? ==>
        r.Ok? && fresh(r.value)
        && r.value.pixels == Painted(paint, s, LayoutOf(s, frameWidth, frameHeight, nameWidth),
                                     Colours(s).value.0, Colours(s).value.1, frameHeight, frameWidth)
        && r.value.height == frameHeight && r.value.width == frameWidth
        && cacheState == Some(s) && cacheImage == r.value
    {
      if !s.visible {
        var blank := new Overlay(frameHeight, frameWidth, Blank(frameHeight, frameWidth));
        return Ok(blank);
      }
      r := RenderVisible(s, nameWidth, paint);
    }

    /** render for a visible state: the cached image on a hit, otherwise a fresh drawing. */
    method RenderVisible(s: State, nameWidth: string -> int, paint: Painter) returns (r: Result<Overlay>)
      requires Valid() && s.visible
      modifies this
      ensures Valid()
      ensures old(CacheHit(s)) ==> r == Ok(old(cacheImage)) && unchanged(this)
      ensures !old(CacheHit(s)) && Colours(s).Err? ==> r == Err(ValueError) && unchanged(this)
      ensures !old(CacheHit(s)) && Colours(s).Ok? ==>
        r.Ok? && fresh(r.value)
        && r.value.pixels == Painted(paint, s, LayoutOf(s, frameWidth, frameHeight, nameWidth),
                                     Colours(s).value.0, Colours(s).value.1, frameHeight, frameWidth)
        && r.value.height == frameHeight && r.value.width == frameWidth
        && cacheState == Some(s) && cacheImage == r.value
    {
      if cacheState == Some(s) && cacheImage != null {
        return Ok(cacheImage);
      }
      var colours := Colours(s);
      if colours.Err? {
        return Err(ValueError);
      }
      var (home, away) := colours.value;
      var layout := LayoutOf(s, frameWidth, frameHeight, nameWidth);
      var img := new Overlay(frameHeight, frameWidth,
                             Painted(paint, s, layout, home, away, frameHeight, frameWidth));
      cacheState := Some(s);
      cacheImage := img;
      return Ok(img);
    }

    /**
     * composite_onto_frame: an invisible state returns the frame object itself, as does an
     * overlay without a single non-zero alpha. Otherwise a fresh copy of the frame is
     * returned in which exactly the pixels of the alpha bounding box are alpha-blended with
     * the overlay; a frame of another size uses the overlay resized to it. The cache changes
     * as render changes it: only a visible state missing the cache, whose colours parse,
     * replaces it with a fresh drawing.
     */
    method CompositeOntoFrame(frame: array2<Pixel>, s: State, nameWidth: string -> int,
                              paint: Painter, resized: Overlay)
      returns (r: Result<array2<Pixel>>)
      requires Valid()
      requires resized.height == frame.Length0 && resized.width == frame.Length1
      requires IsRaster(resized.pixels, frame.Length0, frame.Length1)
      modifies this
      ensures Valid()
      ensures !s.visible ==> r == Ok(frame) && unchanged(this)
      ensures s.visible && !old(CacheHit(s)) && Colours(s).Err? ==>
        r == Err(ValueError) && unchanged(this)
      ensures s.visible && old(CacheHit(s)) ==> unchanged(this)
      ensures s.visible && !old(CacheHit(s)) && Colours(s).Ok? ==>
        cacheState == Some(s) && cacheImage != null && fresh(cacheImage)
        && cacheImage.pixels == Painted(paint, s, LayoutOf(s, frameWidth, frameHeight, nameWidth),
                                        Colours(s).value.0, Colours(s).value.1, frameHeight, frameWidth)
      ensures s.visible && (old(CacheHit(s)) || Colours(s).Ok?) ==>
        var p := if frame.Length0 == frameHeight && frame.Length1 == frameWidth
                 then old(Shown(s, nameWidth, paint)) else resized.pixels;
        r.Ok? && Composited(frame, p, r.value) && (r.value != frame ==> fresh(r.value))
    {
      if !s.visible {
        return Ok(frame);
      }
      ghost var shown := if CacheHit(s) || Colours(s).Ok? then Shown(s, nameWidth, paint) else [];
      var rendered := Render(s, nameWidth, paint);
      if rendered.Err? {
        return Err(rendered.error);
      }
      var overlay := rendered.value;
      assert overlay.pixels == shown;
      if overlay.height != frame.Length0 || overlay.width != frame.Length1 {
        var again := Render(s, nameWidth, paint);
        overlay := resized;
      }
      var result := CompositeOverlay(frame, overlay.pixels);
      return Ok(result);
    }
  }

  // ----- compositing ---------------------------------------------------------------------

  /** The overlay's colour in OpenCV channel order (rgba[:, :, [2, 1, 0, 3]] without alpha). */
  function BgrOf(o: Rgba): Pixel
  {
    Pixel(o.b, o.g, o.r)
  }

  /** overlay * alpha + frame * (1 - alpha) with alpha = a / 255, truncated back to uint8. */
  function CompositePixel(f: Pixel, o: Rgba): (c: Pixel)
    ensures o.a == 0 ==> c == f
    ensures o.a == 255 ==> c == BgrOf(o)
  {
    MixPixel(f, BgrOf(o), o.a as real / 255.0)
  }

  /** Row y of the overlay has a pixel with non-zero alpha. */
  predicate RowHas(p: seq<seq<Rgba>>, y: int)
    requires 0 <= y < |p|
  {
    exists x :: 0 <= x < |p[y]| && p[y][x].a > 0
  }

  /** Column x of the overlay has a pixel with non-zero alpha. */
  predicate ColHas(p: seq<seq<Rgba>>, x: int)
  {
    exists y :: 0 <= y < |p| && 0 <= x < |p[y]| && p[y][x].a > 0
  }

  /** np.any(alpha > 0, axis=1). */
  function RowsWithContent(p: seq<seq<Rgba>>): (flags: seq<bool>)
    ensures |flags| == |p|
  {
    seq(|p|, y requires 0 <= y < |p| => RowHas(p, y))
  }

  /** np.any(alpha > 0, axis=0) over `width` columns. */
  function ColsWithContent(p: seq<seq<Rgba>>, width: nat): (flags: seq<bool>)
    ensures |flags| == width
  {
    seq(width, x => ColHas(p, x))
  }

  predicate AnyTrue(s: seq<bool>)
  {
    exists i :: 0 <= i < |s| && s[i]
  }

  predicate AnyContent(p: seq<seq<Rgba>>, width: nat)
  {
    AnyTrue(RowsWithContent(p))
  }

  /** np.argmax over booleans: the first True, or 0 when there is none. */
  function FirstTrue(s: seq<bool>): (k: nat)
    ensures AnyTrue(s) ==> k < |s| && s[k] && forall j :: 0 <= j < k ==> !s[j]
    ensures !AnyTrue(s) ==> k == 0
  {
    if |s| == 0 then 0
    else if s[0] then 0
    else
      var k := FirstTrue(s[1..]);
      assert AnyTrue(s) ==> AnyTrue(s[1..]) by {
        if AnyTrue(s) {
          var i :| 0 <= i < |s| && s[i];
          assert s[1..][i - 1];
        }
      }
      if k < |s| - 1 && s[k + 1] then k + 1 else 0
  }

  /** s[::-1]. */
  function Reverse(s: seq<bool>): (r: seq<bool>)
    ensures |r| == |s| && forall i :: 0 <= i < |s| ==> r[i] == s[|s| - 1 - i]
  {
    seq(|s|, i requires 0 <= i < |s| => s[|s| - 1 - i])
  }

  /** len(s) - np.argmax(s[::-1]): one past the last True. */
  function LastTrueEnd(s: seq<bool>): (e: nat)
    ensures AnyTrue(s) ==> 0 < e <= |s| && s[e - 1] && forall j :: e <= j < |s| ==> !s[j]
  {
    var r := Reverse(s);
    assert AnyTrue(s) ==> AnyTrue(r) by {
      if AnyTrue(s) {
        var i :| 0 <= i < |s| && s[i];
        assert r[|s| - 1 - i];
      }
    }
    var k := FirstTrue(r);
    assert AnyTrue(s) ==> forall j :: |s| - k <= j < |s| ==> !s[j] by {
      if AnyTrue(s) {
        forall j | |s| - k <= j < |s| ensures !s[j] {
          assert r[|s| - 1 - j] == s[j];
        }
      }
    }
    if |s| >= k then |s| - k else 0
  }

  datatype Box = Box(y0: nat, y1: nat, x0: nat, x1: nat)

  predicate InBox(b: Box, y: int, x: int)
  {
    b.y0 <= y < b.y1 && b.x0 <= x < b.x1
  }

  /** y0:y1, x0:x1 of composite_onto_frame. */
  function ContentBox(p: seq<seq<Rgba>>, width: nat): Box
  {
    var rows := RowsWithContent(p);
    var cols := ColsWithContent(p, width);
    Box(FirstTrue(rows), LastTrueEnd(rows), FirstTrue(cols), LastTrueEnd(cols))
  }

  /**
   * The box is the tightest one around the non-transparent pixels: it lies in the image and
   * its first and last rows each hold such a pixel (ContentBoxColsTight does the same for its
   * columns, and ContentBoxCovers shows that every such pixel is inside it).
   */
  lemma ContentBoxRowsTight(p: seq<seq<Rgba>>, height: nat, width: nat)
    requires IsRaster(p, height, width) && AnyContent(p, width)
    ensures var b := ContentBox(p, width);
      b.y0 < b.y1 <= height && RowHas(p, b.y0) && RowHas(p, b.y1 - 1)
  {
    var rows := RowsWithContent(p);
    var y :| 0 <= y < |rows| && rows[y];
    RowFlag(p, y);
    var first, last := RowCorners(p, y);
    assert ContentBox(p, width).y1 - 1 == last;
  }

  /** The first and last columns of the box each hold a non-transparent pixel. */
  lemma ContentBoxColsTight(p: seq<seq<Rgba>>, height: nat, width: nat)
    requires IsRaster(p, height, width) && AnyContent(p, width)
    ensures var b := ContentBox(p, width);
      b.x0 < b.x1 <= width && ColHas(p, b.x0) && ColHas(p, b.x1 - 1)
  {
    var rows := RowsWithContent(p);
    var y :| 0 <= y < |rows| && rows[y];
    RowFlag(p, y);
    var x := SomeContentColumn(p, y);
    var first, last := ColCorners(p, width, x);
    assert ContentBox(p, width).x1 - 1 == last;
  }

  /** The first and last rows with content, row y lying between them. */
  lemma RowCorners(p: seq<seq<Rgba>>, y: int) returns (first: nat, last: nat)
    requires 0 <= y < |p| && RowHas(p, y)
    ensures first == FirstTrue(RowsWithContent(p)) && last + 1 == LastTrueEnd(RowsWithContent(p))
    ensures first <= y <= last < |p| && RowHas(p, first) && RowHas(p, last)
  {
    first, last := FlagEnds(RowsWithContent(p), y);
    RowFlag(p, first);
    RowFlag(p, last);
  }

  /** The first and last columns with content, column x lying between them. */
  lemma ColCorners(p: seq<seq<Rgba>>, width: nat, x: int) returns (first: nat, last: nat)
    requires 0 <= x < width && ColHas(p, x)
    ensures first == FirstTrue(ColsWithContent(p, width)) && last + 1 == LastTrueEnd(ColsWithContent(p, width))
    ensures first <= x <= last < width && ColHas(p, first) && ColHas(p, last)
  {
    first, last := FlagEnds(ColsWithContent(p, width), x);
    ColFlag(p, width, first);
    ColFlag(p, width, last);
  }

  /** The first and last set flags of a flag vector with flag i set. */
  lemma FlagEnds(s: seq<bool>, i: int) returns (first: nat, last: nat)
    requires 0 <= i < |s| && s[i]
    ensures first == FirstTrue(s) && last + 1 == LastTrueEnd(s)
    ensures first <= i <= last < |s| && s[first] && s[last]
  {
    FlagWithin(s, i);
    first, last := FirstTrue(s), LastTrueEnd(s) - 1;
  }

  lemma RowFlag(p: seq<seq<Rgba>>, y: int)
    requires 0 <= y < |p|
    ensures RowsWithContent(p)[y] ==> RowHas(p, y)
  {
  }

  lemma ColFlag(p: seq<seq<Rgba>>, width: nat, x: int)
    requires 0 <= x < width
    ensures ColsWithContent(p, width)[x] ==> ColHas(p, x)
  {
  }

  /** The box lies inside the overlay. */
  lemma ContentBoxInside(p: seq<seq<Rgba>>, height: nat, width: nat)
    requires IsRaster(p, height, width) && AnyContent(p, width)
    ensures var b := ContentBox(p, width);
      b.y0 < b.y1 <= height && b.x0 < b.x1 <= width
  {
    var rows := RowsWithContent(p);
    var y :| 0 <= y < |rows| && rows[y];
    var x := SomeContentColumn(p, y);
    BoxOfFlags(rows, ColsWithContent(p, width), y, x);
  }

  /** A column holding a non-transparent pixel of a row that has one. */
  lemma SomeContentColumn(p: seq<seq<Rgba>>, y: int) returns (x: int)
    requires 0 <= y < |p| && RowHas(p, y)
    ensures 0 <= x < |p[y]| && ColHas(p, x)
  {
    x :| 0 <= x < |p[y]| && p[y][x].a > 0;
  }

  /** The first and last set flags of two flag vectors that each have one set. */
  lemma BoxOfFlags(rows: seq<bool>, cols: seq<bool>, y: int, x: int)
    requires 0 <= y < |rows| && rows[y] && 0 <= x < |cols| && cols[x]
    ensures FirstTrue(rows) < LastTrueEnd(rows) <= |rows| && FirstTrue(cols) < LastTrueEnd(cols) <= |cols|
    ensures rows[FirstTrue(rows)] && rows[LastTrueEnd(rows) - 1]
    ensures cols[FirstTrue(cols)] && cols[LastTrueEnd(cols) - 1]
  {
    FlagWithin(rows, y);
    FlagWithin(cols, x);
  }

  /** Every pixel with non-zero alpha lies inside the box. */
  lemma ContentBoxCovers(p: seq<seq<Rgba>>, height: nat, width: nat, y: int, x: int)
    requires IsRaster(p, height, width)
    requires 0 <= y < height && 0 <= x < width && p[y][x].a > 0
    ensures InBox(ContentBox(p, width), y, x)
  {
    assert RowHas(p, y) && ColHas(p, x);
    FlagWithin(RowsWithContent(p), y);
    FlagWithin(ColsWithContent(p, width), x);
  }

  /** A set flag lies between the first set flag and one past the last. */
  lemma FlagWithin(s: seq<bool>, i: int)
    requires 0 <= i < |s| && s[i]
    ensures FirstTrue(s) <= i < LastTrueEnd(s) <= |s|
    ensures s[FirstTrue(s)] && s[LastTrueEnd(s) - 1]
  {
    assert AnyTrue(s);
  }

  /**
   * The frame after compositing overlay pixels p: the same frame when no alpha is non-zero,
   * otherwise a frame of the same shape that differs from the input only inside the alpha
   * bounding box, where each pixel is blended with the overlay.
   */
  predicate Composited(frame: array2<Pixel>, p: seq<seq<Rgba>>, out: array2<Pixel>)
    requires IsRaster(p, frame.Length0, frame.Length1)
    reads frame, out
  {
    (!AnyContent(p, frame.Length1) ==> out == frame)
    && (AnyContent(p, frame.Length1) ==>
          out != frame && out.Length0 == frame.Length0 && out.Length1 == frame.Length1
          && forall y, x :: 0 <= y < frame.Length0 && 0 <= x < frame.Length1 ==>
               out[y, x] == (if InBox(ContentBox(p, frame.Length1), y, x)
                             then CompositePixel(frame[y, x], p[y][x]) else frame[y, x]))
  }

  /** From the alpha plane on: the bounding box, frame.copy() and the blend of the box. */
  method CompositeOverlay(frame: array2<Pixel>, p: seq<seq<Rgba>>) returns (result: array2<Pixel>)
    requires IsRaster(p, frame.Length0, frame.Length1)
    ensures Composited(frame, p, result)
    ensures result != frame ==> fresh(result)
  {
    var rows := RowsWithContent(p);
    if !AnyTrue(rows) {
      return frame;
    }
    var box := ContentBox(p, frame.Length1);
    ContentBoxInside(p, frame.Length0, frame.Length1);
    result := CopyFrame(frame);
    BlendRegion(result, frame, p, box);
  }

  /** frame.copy(). */
  method CopyFrame(frame: array2<Pixel>) returns (c: array2<Pixel>)
    ensures fresh(c) && c.Length0 == frame.Length0 && c.Length1 == frame.Length1
    ensures forall y, x :: 0 <= y < c.Length0 && 0 <= x < c.Length1 ==> c[y, x] == frame[y, x]
  {
    c := new Pixel[frame.Length0, frame.Length1](
      (y, x) requires 0 <= y < frame.Length0 && 0 <= x < frame.Length1 reads frame => frame[y, x]);
  }

  /** result[y0:y1, x0:x1] = blended, row by row. */
  method BlendRegion(result: array2<Pixel>, frame: array2<Pixel>, p: seq<seq<Rgba>>, b: Box)
    requires result != frame
    requires result.Length0 == frame.Length0 && result.Length1 == frame.Length1
    requires IsRaster(p, frame.Length0, frame.Length1)
    requires b.y1 <= frame.Length0 && b.x1 <= frame.Length1
    modifies result
    ensures forall y, x :: 0 <= y < result.Length0 && 0 <= x < result.Length1 ==>
      result[y, x] == (if InBox(b, y, x) then CompositePixel(frame[y, x], p[y][x]) else old(result[y, x]))
  {
    var y := b.y0;
    while y < b.y1
      invariant b.y0 <= y <= Max(b.y0, b.y1)
      invariant forall v, u :: 0 <= v < result.Length0 && 0 <= u < result.Length1 ==>
        result[v, u] == (if InBox(b, v, u) && v < y then CompositePixel(frame[v, u], p[v][u])
                         else old(result[v, u]))
    {
      BlendRow(result, frame, p, b, y);
      y := y + 1;
    }
  }

  /** result[y, x0:x1] = blended[y]: one row of the box. */
  method BlendRow(result: array2<Pixel>, frame: array2<Pixel>, p: seq<seq<Rgba>>, b: Box, y: int)
    requires result != frame
    requires result.Length0 == frame.Length0 && result.Length1 == frame.Length1
    requires IsRaster(p, frame.Length0, frame.Length1)
    requires 0 <= y < frame.Length0 && b.x1 <= frame.Length1
    modifies result
    ensures forall v, u :: 0 <= v < result.Length0 && 0 <= u < result.Length1 ==>
      result[v, u] == (if v == y && b.x0 <= u < b.x1 then CompositePixel(frame[v, u], p[v][u])
                       else old(result[v, u]))
  {
    var x := b.x0;
    while x < b.x1
      invariant b.x0 <= x <= Max(b.x0, b.x1)
      invariant forall v, u :: 0 <= v < result.Length0 && 0 <= u < result.Length1 ==>
        result[v, u] == (if v == y && b.x0 <= u < x then CompositePixel(frame[v, u], p[v][u])
                         else old(result[v, u]))
    {
      result[y, x] := CompositePixel(frame[y, x], p[y][x]);
      x := x + 1;
    }
  }
}
