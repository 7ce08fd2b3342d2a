/**
 * interactive.py: the crop window of the PTZ viewer (CropState), the keyboard scoreboard
 * controls of InteractiveViewer.handle_events, the crop keys of handle_keyboard, log_frame,
 * and the bookkeeping of run's frame loop.
 *
 * pygame (display, key polling, the event queue) and OpenCV (video reading, drawing) are
 * foreign: the events and pressed keys of each frame, and the metadata of the opened video,
 * are inputs.
 */
module Interactive {
  import opened Wrappers
  import opened Arith

  const DefaultOutputWidth := 1920
  const DefaultOutputHeight := 1080
  const MinZoom := 0.0
  const MaxZoom := 1.2

  // ----- CropState -----------------------------------------------------------------------

  /** The state of a CropState: panorama and output size, zoom and crop centre. */
  datatype CropView = CropView(panoWidth: int, panoHeight: int, outputWidth: int,
                               outputHeight: int, zoom: real, centerX: real, centerY: real)

  /** crop_w / crop_h: the whole panorama at zoom 0, else int(output size / zoom). */
  function CropSize(zoom: real, pano: int, output: int): int
  {
    if zoom == 0.0 then pano else Trunc(output as real / zoom)
  }

  /**
   * At a positive zoom the crop is the largest whole size that the zoom scales to at most
   * the output size: size * zoom <= output < (size + 1) * zoom.
   */
  lemma CropSizeScales(zoom: real, pano: int, output: int)
    requires zoom > 0.0 && output >= 0
    ensures var size := CropSize(zoom, pano, output);
      size >= 0 && size as real * zoom <= output as real < (size + 1) as real * zoom
  {
    var q := output as real / zoom;
    var f := q.Floor;
    assert q * zoom == output as real;
    assert q >= 0.0;
    assert CropSize(zoom, pano, output) == f;
    assert f as real <= q < f as real + 1.0;
    MulMono(f as real, q, zoom);
    MulStrict(q, f as real + 1.0, zoom);
    assert (f + 1) as real == f as real + 1.0;
  }

  function CropW(v: CropView): int { CropSize(v.zoom, v.panoWidth, v.outputWidth) }

  function CropH(v: CropView): int { CropSize(v.zoom, v.panoHeight, v.outputHeight) }

  /**
   * crop_x / crop_y: int(centre - size / 2) clamped to [0, pano - size]. The origin is never
   * negative, and the crop fits in the panorama whenever it is not larger than it.
   */
  function CropOrigin(center: real, size: int, pano: int): (origin: int)
    ensures origin >= 0
    ensures size <= pano ==> origin + size <= pano
    ensures 0 <= Trunc(center - size as real / 2.0) <= pano - size
            ==> origin == Trunc(center - size as real / 2.0)
  {
    Max(0, Min(Trunc(center - size as real / 2.0), pano - size))
  }

  function CropX(v: CropView): int { CropOrigin(v.centerX, CropW(v), v.panoWidth) }

  function CropY(v: CropView): int { CropOrigin(v.centerY, CropH(v), v.panoHeight) }

  /** move(dx, dy): each centre coordinate is clipped into [size / 2, pano - size / 2]. */
  function MoveView(v: CropView, dx: real, dy: real): CropView
  {
    var w := CropW(v) as real;
    var h := CropH(v) as real;
    v.(centerX := Clip(v.centerX + dx, w / 2.0, v.panoWidth as real - w / 2.0),
       centerY := Clip(v.centerY + dy, h / 2.0, v.panoHeight as real - h / 2.0))
  }

  /**
   * A move keeps the crop size, puts the centre where the crop fits whenever the crop is not
   * larger than the panorama, and leaves an axis with zero delta that is already in range
   * unchanged.
   */
  lemma MoveKeepsCentreInRange(v: CropView, dx: real, dy: real)
    ensures var r := MoveView(v, dx, dy);
      CropW(r) == CropW(v) && CropH(r) == CropH(v)
      && (CropW(v) <= v.panoWidth
          ==> CropW(v) as real / 2.0 <= r.centerX <= v.panoWidth as real - CropW(v) as real / 2.0)
      && (CropH(v) <= v.panoHeight
          ==> CropH(v) as real / 2.0 <= r.centerY <= v.panoHeight as real - CropH(v) as real / 2.0)
      && ((dx == 0.0 && CropW(v) as real / 2.0 <= v.centerX
           <= v.panoWidth as real - CropW(v) as real / 2.0) ==> r.centerX == v.centerX)
      && ((dy == 0.0 && CropH(v) as real / 2.0 <= v.centerY
           <= v.panoHeight as real - CropH(v) as real / 2.0) ==> r.centerY == v.centerY)
  {
  }

  /**
   * adjust_zoom(delta): from the full panorama a positive delta jumps to 0.5; otherwise the
   * sum is clipped into [0, 1.2] and, on a negative delta, a result below 0.1 snaps to 0.
   * Zooming in never lowers the zoom, zooming out never raises it.
   */
  function NextZoom(zoom: real, delta: real): (z: real)
    ensures MinZoom <= z <= MaxZoom
    ensures zoom == 0.0 && delta > 0.0 ==> z == 0.5
    ensures delta < 0.0 ==> z == 0.0 || z >= 0.1
    ensures MinZoom <= zoom <= MaxZoom && delta < 0.0 ==> z <= zoom
    ensures MinZoom <= zoom <= MaxZoom && delta > 0.0 ==> z >= zoom
    ensures MinZoom <= zoom <= MaxZoom && delta == 0.0 ==> z == zoom
  {
    if zoom == 0.0 && delta > 0.0 then 0.5
    else
      var c := Clip(zoom + delta, MinZoom, MaxZoom);
      if c < 0.1 && delta < 0.0 then 0.0 else c
  }

  function ZoomView(v: CropView, delta: real): CropView
  {
    v.(zoom := NextZoom(v.zoom, delta))
  }

  /** A larger positive zoom never gives a larger crop. */
  lemma CropShrinksAsZoomGrows(z1: real, z2: real, pano: int, output: int)
    requires 0.0 < z1 <= z2 && output >= 0
    ensures CropSize(z2, pano, output) <= CropSize(z1, pano, output)
  {
    var q1 := output as real / z1;
    var q2 := output as real / z2;
    assert q1 * z1 == output as real && q2 * z2 == output as real;
    if output > 0 {
      assert q1 > 0.0;
      MulMono(z1, z2, q1);
      if q2 > q1 {
        MulStrict(q1, q2, z2);
        assert false;
      }
    }
  }

  /** The crop sizes at zoom 1.0, 1.2 and 0 for the default 1920x1080 output. */
  lemma DefaultCropSizes(panoWidth: int, panoHeight: int)
    ensures CropSize(1.0, panoWidth, DefaultOutputWidth) == 1920
    ensures CropSize(1.0, panoHeight, DefaultOutputHeight) == 1080
    ensures CropSize(1.2, panoWidth, DefaultOutputWidth) == 1600
    ensures CropSize(1.2, panoHeight, DefaultOutputHeight) == 900
    ensures CropSize(0.0, panoWidth, DefaultOutputWidth) == panoWidth
  {
    assert 1920.0 / 1.2 == 1600.0;
    assert 1080.0 / 1.2 == 900.0;
  }

  /**
   * After a move the unclamped origin int(centre - size / 2) already lies in
   * [0, pano - size]: clamping in crop_x / crop_y changes nothing.
   */
  lemma MovedCropNeedsNoClamp(v: CropView, dx: real, dy: real)
    requires CropW(v) <= v.panoWidth && CropH(v) <= v.panoHeight
    ensures var r := MoveView(v, dx, dy);
      CropX(r) == Trunc(r.centerX - CropW(r) as real / 2.0)
      && CropY(r) == Trunc(r.centerY - CropH(r) as real / 2.0)
  {
    var r := MoveView(v, dx, dy);
    MoveKeepsCentreInRange(v, dx, dy);
    TruncBetween(r.centerX - CropW(r) as real / 2.0, v.panoWidth - CropW(r));
    TruncBetween(r.centerY - CropH(r) as real / 2.0, v.panoHeight - CropH(r));
  }

  lemma TruncBetween(x: real, n: int)
    requires 0.0 <= x <= n as real
    ensures 0 <= Trunc(x) <= n
  {
  }

  /** CropState, whose move and adjust_zoom update the zoom and centre in place. */
  class CropState {
    const panoWidth: int
    const panoHeight: int
    const outputWidth: int
    const outputHeight: int
    var zoom: real
    var centerX: real
    var centerY: real

    function View(): CropView
      reads this
    {
      CropView(panoWidth, panoHeight, outputWidth, outputHeight, zoom, centerX, centerY)
    }

    /** A new crop is at zoom 1.0, centred on the panorama. */
    constructor (panoWidth: int, panoHeight: int, outputWidth: int, outputHeight: int)
      ensures View() == CropView(panoWidth, panoHeight, outputWidth, outputHeight, 1.0,
                                 panoWidth as real / 2.0, panoHeight as real / 2.0)
    {
      this.panoWidth := panoWidth;
      this.panoHeight := panoHeight;
      this.outputWidth := outputWidth;
      this.outputHeight := outputHeight;
      zoom := 1.0;
      centerX := panoWidth as real / 2.0;
      centerY := panoHeight as real / 2.0;
    }

    method Move(dx: real, dy: real)
      modifies this
      ensures View() == MoveView(old(View()), dx, dy)
    {
      var w := CropW(View()) as real;
      var h := CropH(View()) as real;
      centerX := Clip(centerX + dx, w / 2.0, panoWidth as real - w / 2.0);
      centerY := Clip(centerY + dy, h / 2.0, panoHeight as real - h / 2.0);
    }

    method AdjustZoom(delta: real)
      modifies this
      ensures View() == ZoomView(old(View()), delta)
    {
      if zoom == 0.0 && delta > 0.0 {
        zoom := 0.5;
      } else {
        zoom := Clip(zoom + delta, MinZoom, MaxZoom);
        if zoom < 0.1 && delta < 0.0 {
          zoom := 0.0;
        }
      }
    }
  }

  // ----- scoreboard keys -----------------------------------------------------------------

  datatype Key = Escape | Space | KeyQ | KeyA | KeyP | KeyL | KeyR | KeyH | KeyT | OtherKey

  datatype Event = Quit | KeyDown(key: Key) | OtherEvent

  /** The viewer's scoreboard and run flags. */
  datatype Board = Board(homeScore: int, awayScore: int, clockRunning: bool,
                         clockSeconds: real, half: int, visible: bool, running: bool)

  /** One pygame event as handle_events treats it. */
  function ApplyEvent(b: Board, e: Event): Board
  {
    match e
    case Quit => b.(running := false)
    case OtherEvent => b
    case KeyDown(k) =>
      match k
      case Escape => b.(running := false)
      case Space => b.(clockRunning := !b.clockRunning)
      case KeyQ => b.(homeScore := b.homeScore + 1)
      case KeyA => b.(homeScore := Max(0, b.homeScore - 1))
      case KeyP => b.(awayScore := b.awayScore + 1)
      case KeyL => b.(awayScore := Max(0, b.awayScore - 1))
      case KeyR => b.(clockSeconds := 0.0)
      case KeyH => b.(half := if b.half == 1 then 2 else 1, clockSeconds := 0.0,
                      clockRunning := false)
      case KeyT => b.(visible := !b.visible)
      case OtherKey => b
  }

  /** The events of one frame, in queue order. */
  function ApplyAll(b: Board, es: seq<Event>): Board
  {
    if |es| == 0 then b else ApplyEvent(ApplyAll(b, es[..|es| - 1]), es[|es| - 1])
  }

  /** No sequence of key presses makes a score negative. */
  lemma {:induction false} ScoresStayNonNegative(b: Board, es: seq<Event>)
    requires b.homeScore >= 0 && b.awayScore >= 0
    ensures ApplyAll(b, es).homeScore >= 0 && ApplyAll(b, es).awayScore >= 0
  {
    if |es| > 0 {
      ScoresStayNonNegative(b, es[..|es| - 1]);
    }
  }

  /** The half stays 1 or 2, and is certainly one of them after any 'h'. */
  lemma {:induction false} HalfStaysOneOrTwo(b: Board, es: seq<Event>)
    requires b.half == 1 || b.half == 2 || KeyDown(KeyH) in es
    ensures ApplyAll(b, es).half == 1 || ApplyAll(b, es).half == 2
  {
    if |es| > 0 {
      var init := es[..|es| - 1];
      if b.half == 1 || b.half == 2 || KeyDown(KeyH) in init {
        HalfStaysOneOrTwo(b, init);
      } else {
        assert es[|es| - 1] == KeyDown(KeyH);
      }
    }
  }

  /**
   * A score key followed by its minus key restores the board; space and t are involutions;
   * two presses of h give back the half with the clock stopped at zero.
   */
  lemma KeysUndo(b: Board)
    requires b.homeScore >= 0 && b.awayScore >= 0
    ensures ApplyAll(b, [KeyDown(KeyQ), KeyDown(KeyA)]) == b
    ensures ApplyAll(b, [KeyDown(KeyP), KeyDown(KeyL)]) == b
    ensures ApplyAll(b, [KeyDown(Space), KeyDown(Space)]) == b
    ensures ApplyAll(b, [KeyDown(KeyT), KeyDown(KeyT)]) == b
    ensures (b.half == 1 || b.half == 2)
            ==> ApplyAll(b, [KeyDown(KeyH), KeyDown(KeyH)])
                == b.(clockSeconds := 0.0, clockRunning := false)
  {
    ApplyTwo(b, KeyDown(KeyQ), KeyDown(KeyA));
    ApplyTwo(b, KeyDown(KeyP), KeyDown(KeyL));
    ApplyTwo(b, KeyDown(Space), KeyDown(Space));
    ApplyTwo(b, KeyDown(KeyT), KeyDown(KeyT));
    ApplyTwo(b, KeyDown(KeyH), KeyDown(KeyH));
  }

  lemma ApplyTwo(b: Board, e1: Event, e2: Event)
    ensures ApplyAll(b, [e1, e2]) == ApplyEvent(ApplyEvent(b, e1), e2)
  {
    assert [e1, e2][..1] == [e1];
    assert [e1][..0] == [];
    assert ApplyAll(b, [e1]) == ApplyEvent(ApplyAll(b, []), e1);
    assert ApplyAll(b, [e1, e2]) == ApplyEvent(ApplyAll(b, [e1]), e2);
  }

  // ----- the frame loop ------------------------------------------------------------------

  /** Which crop keys handle_keyboard sees held down ('=' or '+' both zoom in). */
  datatype Keys = Keys(left: bool, right: bool, up: bool, down: bool, zoomIn: bool,
                       zoomOut: bool)

  /** The pygame input of one frame. */
  datatype FrameInput = FrameInput(events: seq<Event>, keys: Keys)

  datatype Speeds = Speeds(pan: real, tilt: real, zoom: real)

  /** handle_keyboard: the moves and zoom steps of the held keys, in the source's order. */
  function KeyboardView(v: CropView, k: Keys, sp: Speeds): CropView
  {
    ZoomIf(k.zoomOut, ZoomIf(k.zoomIn, ArrowView(v, k, sp), sp.zoom), -sp.zoom)
  }

  /** The four arrow keys, left, right, up, down, each moving the crop when held. */
  function ArrowView(v: CropView, k: Keys, sp: Speeds): CropView
  {
    MoveIf(k.down, MoveIf(k.up, PanView(v, k, sp), 0.0, -sp.tilt), 0.0, sp.tilt)
  }

  /** The left and right keys, in that order. */
  function PanView(v: CropView, k: Keys, sp: Speeds): CropView
  {
    MoveIf(k.right, MoveIf(k.left, v, -sp.pan, 0.0), sp.pan, 0.0)
  }

  function MoveIf(held: bool, v: CropView, dx: real, dy: real): CropView
  {
    if held then MoveView(v, dx, dy) else v
  }

  function ZoomIf(held: bool, v: CropView, delta: real): CropView
  {
    if held then ZoomView(v, delta) else v
  }

  /** The clock advances by 1/fps per frame while, and only while, it is running. */
  function Tick(b: Board, fps: real): (r: Board)
    requires fps != 0.0
    ensures r.clockRunning == b.clockRunning
    ensures b.clockRunning ==> r.clockSeconds == b.clockSeconds + 1.0 / fps
    ensures !b.clockRunning ==> r == b
    ensures r.(clockSeconds := b.clockSeconds) == b
  {
    if b.clockRunning then b.(clockSeconds := b.clockSeconds + 1.0 / fps) else b
  }

  /** One row of the session log, as log_frame records it. */
  datatype LogRow = LogRow(frame: int, timestamp: real, cropX: int, cropY: int, cropW: int,
                           cropH: int, homeScore: int, awayScore: int, clockRunning: bool,
                           clockSeconds: int, half: int, visible: bool)

  function RowOf(frame: int, timestamp: real, b: Board, v: CropView): LogRow
  {
    LogRow(frame, timestamp, CropX(v), CropY(v), CropW(v), CropH(v), b.homeScore,
           b.awayScore, b.clockRunning, Trunc(b.clockSeconds), b.half, b.visible)
  }

  /** What the run loop carries from frame to frame. */
  datatype Session = Session(board: Board, crop: CropView, frame: int)

  datatype RunSettings = RunSettings(headless: bool, fps: real, speeds: Speeds)

  /** The board and crop after one frame's clock tick, events and keys (not the counter). */
  function Advance(s: Session, input: FrameInput, rs: RunSettings): Session
    requires rs.fps != 0.0
  {
    var b := Tick(s.board, rs.fps);
    if rs.headless then s.(board := b)
    else Session(ApplyAll(b, input.events), KeyboardView(s.crop, input.keys, rs.speeds), s.frame)
  }

  /** The log row of a frame: its number, its time, and the state after the frame's input. */
  function FrameRow(s: Session, input: FrameInput, rs: RunSettings): (row: LogRow)
    requires rs.fps != 0.0
    ensures row.frame == s.frame && row.timestamp == s.frame as real / rs.fps
  {
    var a := Advance(s, input, rs);
    RowOf(s.frame, s.frame as real / rs.fps, a.board, a.crop)
  }

  /** The session after the loop has consumed the given frames. */
  function SessionAfter(s: Session, inputs: seq<FrameInput>, rs: RunSettings): Session
    requires rs.fps != 0.0
  {
    if |inputs| == 0 then s
    else
      var p := SessionAfter(s, inputs[..|inputs| - 1], rs);
      Advance(p, inputs[|inputs| - 1], rs).(frame := p.frame + 1)
  }

  /** The rows logged for the given frames. */
  function RowsOf(s: Session, inputs: seq<FrameInput>, rs: RunSettings): seq<LogRow>
    requires rs.fps != 0.0
  {
    if |inputs| == 0 then []
    else
      var init := inputs[..|inputs| - 1];
      RowsOf(s, init, rs) + [FrameRow(SessionAfter(s, init, rs), inputs[|inputs| - 1], rs)]
  }

  /** After a frame the loop ends when running was cleared or max_frames (if set) is reached. */
  predicate Stops(s: Session, maxFrames: Option<int>)
  {
    !s.board.running || (maxFrames.Some? && maxFrames.value != 0 && s.frame >= maxFrames.value)
  }

  /** The loop went on after every frame of inputs but the last: no earlier frame ended it. */
  predicate Continues(s: Session, inputs: seq<FrameInput>, rs: RunSettings, maxFrames: Option<int>)
    requires rs.fps != 0.0
  {
    |inputs| <= 1
    || (Continues(s, inputs[..|inputs| - 1], rs, maxFrames)
        && !Stops(SessionAfter(s, inputs[..|inputs| - 1], rs), maxFrames))
  }

  /** Continues means exactly that no frame before the last satisfied Stops. */
  lemma {:induction false} ContinuesAt(s: Session, inputs: seq<FrameInput>, rs: RunSettings,
                                       maxFrames: Option<int>, j: nat)
    requires rs.fps != 0.0 && Continues(s, inputs, rs, maxFrames) && 0 < j < |inputs|
    ensures !Stops(SessionAfter(s, inputs[..j], rs), maxFrames)
  {
    var init := inputs[..|inputs| - 1];
    if j < |init| {
      ContinuesAt(s, init, rs, maxFrames, j);
      assert init[..j] == inputs[..j];
    } else {
      assert init == inputs[..j];
    }
  }

  /** The session, rows and continuation after one more frame. */
  lemma FramesSnoc(s: Session, inputs: seq<FrameInput>, n: nat, rs: RunSettings,
                   maxFrames: Option<int>)
    requires rs.fps != 0.0 && n < |inputs|
    ensures var p := SessionAfter(s, inputs[..n], rs);
      SessionAfter(s, inputs[..n + 1], rs) == Advance(p, inputs[n], rs).(frame := p.frame + 1)
      && RowsOf(s, inputs[..n + 1], rs) == RowsOf(s, inputs[..n], rs) + [FrameRow(p, inputs[n], rs)]
      && (Continues(s, inputs[..n], rs, maxFrames) && (n > 0 ==> !Stops(p, maxFrames))
          ==> Continues(s, inputs[..n + 1], rs, maxFrames))
  {
    var xs := inputs[..n + 1];
    assert xs[..n] == inputs[..n] && xs[n] == inputs[n];
  }

  /** Each frame read moves the counter on by one. */
  lemma {:induction false} SessionFrameCount(s: Session, inputs: seq<FrameInput>, rs: RunSettings)
    requires rs.fps != 0.0
    ensures SessionAfter(s, inputs, rs).frame == s.frame + |inputs|
  {
    if |inputs| > 0 {
      SessionFrameCount(s, inputs[..|inputs| - 1], rs);
    }
  }

  /**
   * One row per frame read: row i carries frame number start + i and timestamp
   * (start + i) / fps.
   */
  lemma {:induction false} RowsNumberFrames(s: Session, inputs: seq<FrameInput>, rs: RunSettings)
    requires rs.fps != 0.0
    ensures |RowsOf(s, inputs, rs)| == |inputs|
    ensures forall i :: 0 <= i < |inputs| ==>
      RowsOf(s, inputs, rs)[i].frame == s.frame + i
      && RowsOf(s, inputs, rs)[i].timestamp == (s.frame + i) as real / rs.fps
  {
    if |inputs| > 0 {
      var init := inputs[..|inputs| - 1];
      RowsNumberFrames(s, init, rs);
      SessionFrameCount(s, init, rs);
      var prev := RowsOf(s, init, rs);
      var last := FrameRow(SessionAfter(s, init, rs), inputs[|inputs| - 1], rs);
      assert RowsOf(s, inputs, rs) == prev + [last];
      assert last.frame == s.frame + |init|;
      forall i | 0 <= i < |inputs|
        ensures RowsOf(s, inputs, rs)[i].frame == s.frame + i
        ensures RowsOf(s, inputs, rs)[i].timestamp == (s.frame + i) as real / rs.fps
      {
        if i < |init| {
          assert RowsOf(s, inputs, rs)[i] == prev[i];
        }
      }
    }
  }

  /**
   * Without a display no input is handled: the run flag, scores, half, visibility and crop
   * stay as they were, and the clock gains |frames| / fps exactly when it was running.
   */
  lemma {:induction false} HeadlessSession(s: Session, inputs: seq<FrameInput>, rs: RunSettings)
    requires rs.fps != 0.0 && rs.headless
    ensures var t := SessionAfter(s, inputs, rs);
      t.crop == s.crop && t.frame == s.frame + |inputs|
      && t.board.(clockSeconds := s.board.clockSeconds) == s.board
      && t.board.clockSeconds
         == s.board.clockSeconds + (if s.board.clockRunning then |inputs| as real / rs.fps else 0.0)
  {
    if |inputs| > 0 {
      HeadlessSession(s, inputs[..|inputs| - 1], rs);
      var n := |inputs| - 1;
      assert (n as real) / rs.fps + 1.0 / rs.fps == (n + 1) as real / rs.fps;
    }
  }

  /**
   * In headless mode the loop reads every frame unless max_frames is set (non-zero): then
   * it stops once the counter reaches it, after at least one frame.
   */
  function HeadlessFrames(start: int, available: nat, maxFrames: Option<int>): (n: nat)
    ensures n <= available
  {
    if available == 0 then 0
    else if maxFrames.None? || maxFrames.value == 0 then available
    else Min(available, Max(1, maxFrames.value - start))
  }

  /** The loop's stopping rule in headless mode gives exactly HeadlessFrames rows. */
  lemma HeadlessRunLength(s: Session, inputs: seq<FrameInput>, rs: RunSettings,
                          maxFrames: Option<int>, n: nat)
    requires rs.fps != 0.0 && rs.headless && s.board.running
    requires n <= |inputs| && (|inputs| > 0 ==> n >= 1)
    requires n < |inputs| ==> Stops(SessionAfter(s, inputs[..n], rs), maxFrames)
    requires Continues(s, inputs[..n], rs, maxFrames)
    ensures n == HeadlessFrames(s.frame, |inputs|, maxFrames)
  {
    var m := HeadlessFrames(s.frame, |inputs|, maxFrames);
    if n < |inputs| {
      HeadlessSession(s, inputs[..n], rs);
    }
    if 0 < m < n {
      ContinuesAt(s, inputs[..n], rs, maxFrames, m);
      assert inputs[..n][..m] == inputs[..m];
      HeadlessSession(s, inputs[..m], rs);
    }
  }

  /** What opening the video reports: frame size, CAP_PROP_FPS and the frame count. */
  datatype VideoInfo = VideoInfo(width: int, height: int, fps: real, frameCount: int)

  /** A zero frame rate from the container falls back to 30. */
  function EffectiveFps(fps: real): (f: real)
    ensures f != 0.0
    ensures fps != 0.0 ==> f == fps
  {
    if fps == 0.0 then 30.0 else fps
  }

  /** One arrow key of handle_keyboard: move the crop when the key is held. */
  method MoveWhenHeld(c: CropState, held: bool, dx: real, dy: real)
    modifies c
    ensures c.View() == MoveIf(held, old(c.View()), dx, dy)
  {
    if held {
      c.Move(dx, dy);
    }
  }

  /** One zoom key of handle_keyboard: step the zoom when the key is held. */
  method ZoomWhenHeld(c: CropState, held: bool, delta: real)
    modifies c
    ensures c.View() == ZoomIf(held, old(c.View()), delta)
  {
    if held {
      c.AdjustZoom(delta);
    }
  }

  /** The held left and right keys applied to a crop, in that order. */
  method ApplyPan(c: CropState, keys: Keys, sp: Speeds)
    modifies c
    ensures c.View() == PanView(old(c.View()), keys, sp)
  {
    ghost var v0 := c.View();
    MoveWhenHeld(c, keys.left, -sp.pan, 0.0);
    ghost var v1 := c.View();
    MoveWhenHeld(c, keys.right, sp.pan, 0.0);
    assert v1 == MoveIf(keys.left, v0, -sp.pan, 0.0);
  }

  /** The held arrow keys applied to a crop in handle_keyboard's order. */
  method ApplyArrows(c: CropState, keys: Keys, sp: Speeds)
    modifies c
    ensures c.View() == ArrowView(old(c.View()), keys, sp)
  {
    ghost var v0 := c.View();
    ApplyPan(c, keys, sp);
    ghost var v1 := c.View();
    MoveWhenHeld(c, keys.up, 0.0, -sp.tilt);
    ghost var v2 := c.View();
    MoveWhenHeld(c, keys.down, 0.0, sp.tilt);
    assert v1 == PanView(v0, keys, sp);
    assert v2 == MoveIf(keys.up, v1, 0.0, -sp.tilt);
  }

  /** The held keys applied to a crop in handle_keyboard's order. */
  method ApplyKeys(c: CropState, keys: Keys, sp: Speeds)
    modifies c
    ensures c.View() == KeyboardView(old(c.View()), keys, sp)
  {
    ghost var v0 := c.View();
    ApplyArrows(c, keys, sp);
    ghost var v1 := c.View();
    ZoomWhenHeld(c, keys.zoomIn, sp.zoom);
    ghost var v2 := c.View();
    ZoomWhenHeld(c, keys.zoomOut, -sp.zoom);
    assert v1 == ArrowView(v0, keys, sp);
    assert v2 == ZoomIf(keys.zoomIn, v1, sp.zoom);
  }

  /** The crop open_video creates: default output size, zoom 1.0, centred. */
  function InitialCrop(info: VideoInfo): CropView
  {
    CropView(info.width, info.height, DefaultOutputWidth, DefaultOutputHeight, 1.0,
             info.width as real / 2.0, info.height as real / 2.0)
  }

  /** InteractiveViewer: its scoreboard, counters and log, updated in place by the loop. */
  class InteractiveViewer {
    var panoWidth: int
    var panoHeight: int
    var fps: real
    var totalFrames: int
    var currentFrame: int
    var crop: CropState?
    var running: bool
    var panSpeed: real
    var tiltSpeed: real
    var zoomSpeed: real
    var homeScore: int
    var awayScore: int
    var clockRunning: bool
    var clockSeconds: real
    var half: int
    var scoreboardVisible: bool
    var logRows: seq<LogRow>

    function BoardState(): Board
      reads this
    {
      Board(homeScore, awayScore, clockRunning, clockSeconds, half, scoreboardVisible, running)
    }

    /** The loop state, with c the viewer's crop. */
    function SessionWith(c: CropState): Session
      reads this, c
    {
      Session(BoardState(), c.View(), currentFrame)
    }

    /** A viewer starts at frame 0 with a 0-0 first-half board; speeds come from the config. */
    constructor (config: map<string, real>)
      ensures BoardState() == Board(0, 0, false, 0.0, 1, true, false)
      ensures currentFrame == 0 && logRows == [] && crop == null && fps == 30.0
      ensures panSpeed == (if "pan_speed" in config then config["pan_speed"] else 15.0)
      ensures tiltSpeed == (if "tilt_speed" in config then config["tilt_speed"] else 10.0)
      ensures zoomSpeed == (if "zoom_speed" in config then config["zoom_speed"] else 0.02)
    {
      panoWidth := 0;
      panoHeight := 0;
      fps := 30.0;
      totalFrames := 0;
      currentFrame := 0;
      crop := null;
      running := false;
      panSpeed := if "pan_speed" in config then config["pan_speed"] else 15.0;
      tiltSpeed := if "tilt_speed" in config then config["tilt_speed"] else 10.0;
      zoomSpeed := if "zoom_speed" in config then config["zoom_speed"] else 0.02;
      homeScore := 0;
      awayScore := 0;
      clockRunning := false;
      clockSeconds := 0.0;
      half := 1;
      scoreboardVisible := true;
      logRows := [];
    }

    /** One event of handle_events. */
    method HandleEvent(e: Event)
      modifies this
      ensures BoardState() == ApplyEvent(old(BoardState()), e)
      ensures currentFrame == old(currentFrame) && crop == old(crop) && fps == old(fps)
      ensures logRows == old(logRows)
      ensures panSpeed == old(panSpeed) && tiltSpeed == old(tiltSpeed)
      ensures zoomSpeed == old(zoomSpeed)
    {
      match e
      case Quit =>
        running := false;
      case OtherEvent =>
      case KeyDown(k) =>
        if k == Escape {
          running := false;
        } else if k == Space {
          clockRunning := !clockRunning;
        } else if k == KeyQ {
          homeScore := homeScore + 1;
        } else if k == KeyA {
          homeScore := Max(0, homeScore - 1);
        } else if k == KeyP {
          awayScore := awayScore + 1;
        } else if k == KeyL {
          awayScore := Max(0, awayScore - 1);
        } else if k == KeyR {
          clockSeconds := 0.0;
        } else if k == KeyH {
          half := if half == 1 then 2 else 1;
          clockSeconds := 0.0;
          clockRunning := false;
        } else if k == KeyT {
          scoreboardVisible := !scoreboardVisible;
        }
    }

    /** handle_events: the frame's queued events in order. */
    method HandleEvents(events: seq<Event>)
      modifies this
      ensures BoardState() == ApplyAll(old(BoardState()), events)
      ensures currentFrame == old(currentFrame) && crop == old(crop) && fps == old(fps)
      ensures logRows == old(logRows)
      ensures panSpeed == old(panSpeed) && tiltSpeed == old(tiltSpeed)
      ensures zoomSpeed == old(zoomSpeed)
    {
      var i := 0;
      while i < |events|
        invariant 0 <= i <= |events|
        invariant BoardState() == ApplyAll(old(BoardState()), events[..i])
        invariant currentFrame == old(currentFrame) && crop == old(crop) && fps == old(fps)
        invariant logRows == old(logRows)
        invariant panSpeed == old(panSpeed) && tiltSpeed == old(tiltSpeed)
        invariant zoomSpeed == old(zoomSpeed)
      {
        HandleEvent(events[i]);
        assert events[..i + 1][..i] == events[..i];
        i := i + 1;
      }
      assert events[..i] == events;
    }

    /** handle_keyboard: move and zoom the crop for the held keys. */
    method HandleKeyboard(keys: Keys)
      requires crop != null
      modifies crop
      ensures crop.View() == KeyboardView(old(crop.View()), keys, Speeds(panSpeed, tiltSpeed, zoomSpeed))
    {
      ApplyKeys(crop, keys, Speeds(panSpeed, tiltSpeed, zoomSpeed));
    }

    /** log_frame: append the current state as one row. */
    method LogFrame(timestamp: real)
      requires crop != null
      modifies this
      ensures crop == old(crop) && fps == old(fps)
      ensures logRows == old(logRows) + [RowOf(currentFrame, timestamp, BoardState(), crop.View())]
      ensures BoardState() == old(BoardState()) && currentFrame == old(currentFrame)
      ensures panSpeed == old(panSpeed) && tiltSpeed == old(tiltSpeed)
      ensures zoomSpeed == old(zoomSpeed)
    {
      logRows := logRows + [RowOf(currentFrame, timestamp, BoardState(), crop.View())];
    }

    /**
     * One pass of run's loop body after a successful read: advance the clock, handle the
     * frame's events and keys unless headless, log the row, count the frame.
     */
    method Step(c: CropState, input: FrameInput, headless: bool, tick: real)
      requires crop == c && fps != 0.0 && tick == 1.0 / fps
      modifies this, c
      ensures crop == c && fps == old(fps)
      ensures panSpeed == old(panSpeed) && tiltSpeed == old(tiltSpeed)
      ensures zoomSpeed == old(zoomSpeed)
      ensures var rs := RunSettings(headless, fps, Speeds(panSpeed, tiltSpeed, zoomSpeed));
        SessionWith(c)
        == Advance(old(SessionWith(c)), input, rs).(frame := old(currentFrame) + 1)
        && logRows == old(logRows) + [FrameRow(old(SessionWith(c)), input, rs)]
    {
      ghost var rs := RunSettings(headless, fps, Speeds(panSpeed, tiltSpeed, zoomSpeed));
      ghost var before := SessionWith(c);
      var timestamp := currentFrame as real / fps;
      if clockRunning {
        clockSeconds := clockSeconds + tick;
      }
      assert BoardState() == Tick(before.board, fps);
      if !headless {
        HandleEvents(input.events);
        HandleKeyboard(input.keys);
      }
      assert BoardState() == Advance(before, input, rs).board;
      assert c.View() == Advance(before, input, rs).crop;
      LogFrame(timestamp);
      currentFrame := currentFrame + 1;
    }

    /**
     * open_video on a video that opens: read its size, frame rate (0 means 30) and frame
     * count, and start a fresh crop centred on it.
     */
    method OpenVideo(info: VideoInfo) returns (c: CropState)
      modifies this
      ensures fresh(c) && crop == c && c.View() == InitialCrop(info)
      ensures panoWidth == info.width && panoHeight == info.height
      ensures fps == EffectiveFps(info.fps) && totalFrames == info.frameCount
      ensures BoardState() == old(BoardState()) && currentFrame == old(currentFrame)
      ensures logRows == old(logRows)
      ensures panSpeed == old(panSpeed) && tiltSpeed == old(tiltSpeed)
      ensures zoomSpeed == old(zoomSpeed)
    {
      panoWidth := info.width;
      panoHeight := info.height;
      fps := EffectiveFps(info.fps);
      totalFrames := info.frameCount;
      c := new CropState(panoWidth, panoHeight, DefaultOutputWidth, DefaultOutputHeight);
      crop := c;
    }

    /**
     * run(headless, max_frames) on an opened video (None: it cannot be opened) whose readable
     * frames bring the inputs listed. It fails before reading when the video does not open
     * or a display is wanted without pygame; otherwise it logs one row per frame read, in
     * the order SessionAfter/RowsOf give, and stops only at the end of the video or at the
     * first frame after which Stops holds.
     */
    method Run(video: Option<VideoInfo>, headless: bool, pygameAvailable: bool,
               inputs: seq<FrameInput>, maxFrames: Option<int>) returns (r: Outcome, n: nat)
      modifies this
      ensures video.None? ==> r == Fail(FileNotFoundError) && logRows == old(logRows)
      ensures video.Some? && !headless && !pygameAvailable
              ==> r == Fail(RuntimeError) && logRows == old(logRows)
      ensures video.Some? && (headless || pygameAvailable) ==>
        var info := video.value;
        var rs := RunSettings(headless, EffectiveFps(info.fps),
                              Speeds(old(panSpeed), old(tiltSpeed), old(zoomSpeed)));
        var s0 := Session(old(BoardState()).(running := true), InitialCrop(info),
                          old(currentFrame));
        r == Pass && n <= |inputs| && (|inputs| > 0 ==> n >= 1)
        && crop != null && SessionWith(crop) == SessionAfter(s0, inputs[..n], rs)
        && logRows == old(logRows) + RowsOf(s0, inputs[..n], rs)
        && (n < |inputs| ==> Stops(SessionAfter(s0, inputs[..n], rs), maxFrames))
        && Continues(s0, inputs[..n], rs, maxFrames)
    {
      if video.None? {
        return Fail(FileNotFoundError), 0;
      }
      var info := video.value;
      var c := OpenVideo(info);
      if !headless && !pygameAvailable {
        return Fail(RuntimeError), 0;
      }
      running := true;
      ghost var s0 := SessionWith(c);
      assert s0 == Session(old(BoardState()).(running := true), InitialCrop(info), old(currentFrame));
      n := Loop(c, inputs, headless, maxFrames);
      r := Pass;
    }

    /** One frame of the loop, carrying its invariant over the frames read so far. */
    method StepFrame(c: CropState, inputs: seq<FrameInput>, n: nat, headless: bool, tick: real,
                     maxFrames: Option<int>, ghost s0: Session, ghost rows0: seq<LogRow>,
                     ghost rs: RunSettings)
      requires crop == c && fps != 0.0 && tick == 1.0 / fps && n < |inputs|
      requires rs == RunSettings(headless, fps, Speeds(panSpeed, tiltSpeed, zoomSpeed))
      requires SessionWith(c) == SessionAfter(s0, inputs[..n], rs)
      requires logRows == rows0 + RowsOf(s0, inputs[..n], rs)
      requires Continues(s0, inputs[..n], rs, maxFrames)
      requires n > 0 ==> !Stops(SessionWith(c), maxFrames)
      modifies this, c
      ensures crop == c && fps == old(fps)
      ensures rs == RunSettings(headless, fps, Speeds(panSpeed, tiltSpeed, zoomSpeed))
      ensures SessionWith(c) == SessionAfter(s0, inputs[..n + 1], rs)
      ensures logRows == rows0 + RowsOf(s0, inputs[..n + 1], rs)
      ensures Continues(s0, inputs[..n + 1], rs, maxFrames)
    {
      ghost var before := SessionWith(c);
      FramesSnoc(s0, inputs, n, rs, maxFrames);
      Step(c, inputs[n], headless, tick);
      assert SessionWith(c) == Advance(before, inputs[n], rs).(frame := before.frame + 1);
      assert logRows == rows0 + RowsOf(s0, inputs[..n], rs) + [FrameRow(before, inputs[n], rs)];
    }

    /**
     * The while-running loop of run: read frames until the video ends or a frame ends with
     * Stops; one Step per frame read.
     */
    method Loop(c: CropState, inputs: seq<FrameInput>, headless: bool, maxFrames: Option<int>)
      returns (n: nat)
      requires crop == c && fps != 0.0 && running
      modifies this, c
      ensures crop == c && fps == old(fps)
      ensures panSpeed == old(panSpeed) && tiltSpeed == old(tiltSpeed)
      ensures zoomSpeed == old(zoomSpeed)
      ensures var rs := RunSettings(headless, fps, Speeds(panSpeed, tiltSpeed, zoomSpeed));
        var s0 := old(SessionWith(c));
        n <= |inputs| && (|inputs| > 0 ==> n >= 1)
        && SessionWith(c) == SessionAfter(s0, inputs[..n], rs)
        && logRows == old(logRows) + RowsOf(s0, inputs[..n], rs)
        && (n < |inputs| ==> Stops(SessionAfter(s0, inputs[..n], rs), maxFrames))
        && Continues(s0, inputs[..n], rs, maxFrames)
    {
      ghost var rs := RunSettings(headless, fps, Speeds(panSpeed, tiltSpeed, zoomSpeed));
      ghost var s0 := SessionWith(c);
      ghost var rows0 := logRows;
      var tick := 1.0 / fps;
      n := 0;
      while running
        invariant 0 <= n <= |inputs|
        invariant crop == c && fps == rs.fps && tick == 1.0 / fps
        invariant rs == RunSettings(headless, fps, Speeds(panSpeed, tiltSpeed, zoomSpeed))
        invariant SessionWith(c) == SessionAfter(s0, inputs[..n], rs)
        invariant logRows == rows0 + RowsOf(s0, inputs[..n], rs)
        invariant n == 0 ==> running
        invariant Continues(s0, inputs[..n], rs, maxFrames)
        invariant n > 0 ==> !(maxFrames.Some? && maxFrames.value != 0 && currentFrame >= maxFrames.value)
        decreases |inputs| - n
      {
        if n == |inputs| {
          break;
        }
        StepFrame(c, inputs, n, headless, tick, maxFrames, s0, rows0, rs);
        n := n + 1;
        if maxFrames.Some? && maxFrames.value != 0 && currentFrame >= maxFrames.value {
          break;
        }
      }
    }
  }
}
