/** The integer layout that `build_export_filter` computes before it writes
    the ffmpeg filter graph: the size and position of the recorded frame on
    the export canvas, its corner radius and shadow, and the size, corner and
    radius of the camera tile. The values the source computes with `f32`
    arithmetic (the frame size fitted to the aspect ratio, the 9:16 shrink,
    the camera scale) enter as integers that are already rounded. */
module Layout {
  import opened Text
  import opened Geometry

  /** A Rust `u32`. */
  type U32 = n: nat | n < 0x1_0000_0000

  /** `n as i32` for a `u32`: values from 2^31 up wrap to negative ones. */
  function U32AsI32(n: U32): (v: int)
    ensures -0x8000_0000 <= v < 0x8000_0000
    ensures v == n || v == n - 0x1_0000_0000
  {
    if n < 0x8000_0000 then n else n - 0x1_0000_0000
  }

  /** `EditState`: the layout choices the editor stores per recording. */
  datatype EditState = EditState(
    aspect: string,
    padding: U32,
    radius: U32,
    shadow: U32,
    cameraSize: U32,
    cameraShape: string,
    cameraShadow: U32,
    cameraMirror: bool,
    cameraBlur: bool,
    backgroundType: string,
    backgroundPreset: U32,
    cameraPosition: string)

  /** `EditState::default()`, which `load_edit_state` also returns when no
      edit state has been saved next to the recording. */
  const DefaultEditState: EditState :=
    EditState("16:9", 0, 12, 20, 104, "circle", 22, false, false, "gradient", 0, "bottom_left")

  /** `ExportProfile` of an export request. */
  datatype ExportProfile = ExportProfile(format: string, width: U32, height: U32, fps: U32, bitrateKbps: U32)

  /** `(shadow as i32 / 4).max(1)`, the blur of a drop shadow: a quarter of
      the shadow, at least 1. A shadow from 2^31 up turns negative in the
      cast and gets the smallest blur. */
  function ShadowBlur(shadow: U32): (blur: int)
    ensures shadow < 0x8000_0000 ==> blur == Max(shadow / 4, 1)
    ensures shadow >= 0x8000_0000 ==> blur == 1
  {
    Max(TruncDiv(U32AsI32(shadow), 4), 1)
  }

  /** `(shadow as i32 / 6).max(0)`, how far a drop shadow is moved right and
      down: a sixth of the shadow. A shadow from 2^31 up turns negative in
      the cast and is not moved. */
  function ShadowOffset(shadow: U32): (offset: int)
    ensures shadow < 0x8000_0000 ==> offset == shadow / 6
    ensures shadow >= 0x8000_0000 ==> offset == 0
  {
    Max(TruncDiv(U32AsI32(shadow), 6), 0)
  }

  /** Placement of the recorded frame on the export canvas. */
  datatype FrameLayout = FrameLayout(
    innerW: int, innerH: int,
    posX: int, posY: int,
    radius: int,
    shadowBlur: int, shadowOffset: int,
    targetW: int, targetH: int)

  /** The frame part of `build_export_filter`. `frameW`/`frameH` are the frame
      size fitted to the aspect ratio and rounded; `shrunkW`/`shrunkH` are the
      inner size times the 9:16 shrink factor, rounded. The inner size is the
      largest even number at or below the padded frame size, never below 2;
      the position centres it on the canvas to within 3 pixels, biased to
      the left and top; the corner radius is the requested one, capped at
      half the shorter side. */
  function FrameLayoutOf(edit: EditState, profile: ExportProfile, frameW: int, frameH: int, shrunkW: int, shrunkH: int): (l: FrameLayout)
    ensures l.innerW % 2 == 0 && l.innerH % 2 == 0 && l.innerW >= 2 && l.innerH >= 2
    ensures var padding := U32AsI32(edit.padding);
      && l.innerW <= Max(frameW - padding * 2, 2) < l.innerW + 2
      && l.innerH <= Max(frameH - padding * 2, 2) < l.innerH + 2
    ensures l.posX % 2 == 0 && l.posY % 2 == 0
    ensures var slackX, slackY := U32AsI32(profile.width) - l.innerW, U32AsI32(profile.height) - l.innerH;
      && -1 <= slackX - 2 * l.posX <= 3
      && -1 <= slackY - 2 * l.posY <= 3
      && (slackX >= 0 ==> 0 <= l.posX && 2 * l.posX <= slackX)
      && (slackY >= 0 ==> 0 <= l.posY && 2 * l.posY <= slackY)
    ensures var cap := Min(l.innerW, l.innerH) / 2;
      && 0 <= l.radius <= cap
      && (l.radius == edit.radius || (edit.radius > cap && l.radius == cap))
    ensures edit.shadow < 0x8000_0000 ==> l.shadowBlur == Max(edit.shadow / 4, 1) && l.shadowOffset == edit.shadow / 6
    ensures edit.shadow >= 0x8000_0000 ==> l.shadowBlur == 1 && l.shadowOffset == 0
    ensures l.targetW % 2 == 0 && l.targetH % 2 == 0
    ensures l.targetW <= Max(shrunkW, 2) < l.targetW + 2 && l.targetH <= Max(shrunkH, 2) < l.targetH + 2
  {
    var outputW, outputH := U32AsI32(profile.width), U32AsI32(profile.height);
    var padding := U32AsI32(edit.padding);
    var innerW := Evenize(Max(frameW - padding * 2, 2));
    var innerH := Evenize(Max(frameH - padding * 2, 2));
    var posX := Evenize(TruncDiv(outputW - innerW, 2));
    var posY := Evenize(TruncDiv(outputH - innerH, 2));
    var radius := Min(edit.radius, Min(innerW, innerH) / 2);
    FrameLayout(
      innerW, innerH, posX, posY, radius,
      ShadowBlur(edit.shadow), ShadowOffset(edit.shadow),
      Max(Evenize(shrunkW), 2), Max(Evenize(shrunkH), 2))
  }

  /** The corner the camera tile is anchored to; any other position string
      falls back to the bottom-left corner. */
  datatype Corner = TopLeft | TopRight | BottomLeft | BottomRight

  function CornerOf(position: string): Corner
  {
    if position == "top_left" then TopLeft
    else if position == "top_right" then TopRight
    else if position == "bottom_right" then BottomRight
    else BottomLeft
  }

  predicate AnchoredRight(c: Corner) { c == TopRight || c == BottomRight }

  predicate AnchoredBottom(c: Corner) { c == BottomLeft || c == BottomRight }

  /** Placement of the camera tile on the export canvas. */
  datatype CameraLayout = CameraLayout(
    size: int, x: int, y: int, radius: int,
    shadowBlur: int, shadowOffset: int, shadowX: int, shadowY: int)

  /** The camera part of `build_export_filter`. `scaledSize` is the requested
      camera size times the canvas scale (and 2 for 9:16), rounded; `offset`,
      `roundedRadius` and `squareRadius` are 12, 18 and 6 times the scale,
      rounded. The tile side is the largest even number at or below the
      scaled size, never below 2; it keeps `offset` pixels from the edges of
      its corner, except that a right or bottom coordinate that would be
      negative is clamped to 0; its radius never exceeds half its side. */
  function CameraLayoutOf(edit: EditState, profile: ExportProfile, scaledSize: int, offset: int, roundedRadius: int, squareRadius: int): (c: CameraLayout)
    ensures c.size % 2 == 0 && 2 <= c.size <= Max(scaledSize, 2) < c.size + 2
    ensures c.radius <= c.size / 2
    ensures edit.cameraShape == "circle" ==> c.radius == c.size / 2
    ensures edit.cameraShape == "rounded" ==> c.radius == Min(roundedRadius, c.size / 2)
    ensures edit.cameraShape != "circle" && edit.cameraShape != "rounded" ==> c.radius == Min(squareRadius, c.size / 2)
    ensures var corner, outputW, outputH := CornerOf(edit.cameraPosition), U32AsI32(profile.width), U32AsI32(profile.height);
      && (!AnchoredRight(corner) ==> c.x == offset)
      && (AnchoredRight(corner) ==> c.x >= 0 && (c.x + c.size + offset == outputW || (c.x == 0 && outputW < c.size + offset)))
      && (!AnchoredBottom(corner) ==> c.y == offset)
      && (AnchoredBottom(corner) ==> c.y >= 0 && (c.y + c.size + offset == outputH || (c.y == 0 && outputH < c.size + offset)))
    ensures edit.cameraShadow < 0x8000_0000 ==> c.shadowBlur == Max(edit.cameraShadow / 4, 1) && c.shadowOffset == edit.cameraShadow / 6
    ensures edit.cameraShadow >= 0x8000_0000 ==> c.shadowBlur == 1 && c.shadowOffset == 0
    ensures c.shadowX == c.x + c.shadowOffset && c.shadowY == c.y + c.shadowOffset
  {
    var outputW, outputH := U32AsI32(profile.width), U32AsI32(profile.height);
    var size := Evenize(Max(scaledSize, 2));
    var right, bottom := Max(outputW - size - offset, 0), Max(outputH - size - offset, 0);
    var position := edit.cameraPosition;
    var (x, y) :=
      if position == "top_left" then (offset, offset)
      else if position == "top_right" then (right, offset)
      else if position == "bottom_right" then (right, bottom)
      else (offset, bottom);
    var shape := edit.cameraShape;
    var radius := Min(if shape == "circle" then size / 2 else if shape == "rounded" then roundedRadius else squareRadius, size / 2);
    var shadowOffset := ShadowOffset(edit.cameraShadow);
    CameraLayout(size, x, y, radius, ShadowBlur(edit.cameraShadow), shadowOffset, x + shadowOffset, y + shadowOffset)
  }

  /** When the canvas has room for the tile and its margins, the tile lies
      wholly on the canvas, whatever corner it is anchored to. */
  lemma CameraTileOnCanvas(edit: EditState, profile: ExportProfile, scaledSize: int, offset: int, roundedRadius: int, squareRadius: int)
    requires offset >= 0
    requires var c := CameraLayoutOf(edit, profile, scaledSize, offset, roundedRadius, squareRadius);
      c.size + 2 * offset <= U32AsI32(profile.width) && c.size + 2 * offset <= U32AsI32(profile.height)
    ensures var c := CameraLayoutOf(edit, profile, scaledSize, offset, roundedRadius, squareRadius);
      && offset <= c.x && c.x + c.size + offset <= U32AsI32(profile.width)
      && offset <= c.y && c.y + c.size + offset <= U32AsI32(profile.height)
  {
  }

  /** The worked example of the default edit state on a 1920x1080 canvas:
      the frame fills the canvas with the default 12-pixel corner radius. */
  lemma DefaultFrameAt1080p()
    ensures FrameLayoutOf(DefaultEditState, ExportProfile("h264", 1920, 1080, 60, 8000), 1920, 1080, 1920, 1080)
         == FrameLayout(1920, 1080, 0, 0, 12, 5, 3, 1920, 1080)
  {
    assert U32AsI32(1920) == 1920 && U32AsI32(1080) == 1080 && U32AsI32(0) == 0 && U32AsI32(20) == 20;
    assert Evenize(1920) == 1920 && Evenize(1080) == 1080;
    assert Max(1920 - 0 * 2, 2) == 1920 && Max(1080 - 0 * 2, 2) == 1080;
    assert TruncDiv(1920 - 1920, 2) == 0 && TruncDiv(1080 - 1080, 2) == 0 && Evenize(0) == 0;
    assert Min(12, Min(1920, 1080) / 2) == 12;
    assert TruncDiv(20, 4) == 5 && TruncDiv(20, 6) == 3;
  }

  /** With the default edit state on a 1920x1080 canvas (scale 1920/420), the
      474-pixel circular camera tile sits 55 pixels in from the bottom-left
      corner. */
  lemma DefaultCameraAt1080p()
    ensures CameraLayoutOf(DefaultEditState, ExportProfile("h264", 1920, 1080, 60, 8000), 475, 55, 82, 27)
         == CameraLayout(474, 55, 551, 237, 5, 3, 58, 554)
  {
    assert TruncDiv(22, 4) == 5 && TruncDiv(22, 6) == 3;
    assert Evenize(475) == 474;
    assert CornerOf("bottom_left") == BottomLeft;
  }
}
