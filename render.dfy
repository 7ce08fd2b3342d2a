/**
 * The final broadcast encoder: validation of the session log, the per-row crop (parse,
 * clamp to the panorama, full-frame fallback, letterbox of a full-panorama view), the
 * scoreboard state read from the row, and the loop that consumes one source frame per log
 * row and writes one output frame per usable row. Decoding, resizing and encoding are
 * OpenCV's; the model records which crop each written frame came from and how it was laid
 * out.
 */
module Render {
  import opened Wrappers
  import opened Arith
  import opened Text
  import opened SessionLog
  import Scoreboard
  import Interactive

  // ----- the log -------------------------------------------------------------------------

  const RequiredColumns := ["crop_x", "crop_y", "crop_w", "crop_h"]

  /** [c for c in required if c not in row], in the order of `required`. */
  function MissingColumns(required: seq<string>, row: Row): (missing: seq<string>)
    ensures forall c :: c in missing <==> c in required && c !in row
  {
    if |required| == 0 then []
    else (if required[0] in row then [] else [required[0]]) + MissingColumns(required[1..], row)
  }

  /**
   * read_log, given whether the path exists and the rows csv.DictReader yields: a missing
   * file is a FileNotFoundError, a log without data rows and a first row lacking a crop
   * column are ValueErrors; otherwise the rows come back as they are.
   */
  function ReadLog(fileExists: bool, rows: seq<Row>): (r: Result<seq<Row>>)
    ensures !fileExists ==> r == Err(FileNotFoundError)
    ensures fileExists && |rows| == 0 ==> r == Err(ValueError)
    ensures r.Ok? <==> fileExists && |rows| > 0 && forall c :: c in RequiredColumns ==> c in rows[0]
    ensures r.Ok? ==> r.value == rows
    ensures r.Err? ==> r.error == FileNotFoundError || r.error == ValueError
  {
    if !fileExists then Err(FileNotFoundError)
    else if |rows| == 0 then Err(ValueError)
    else
      var missing := MissingColumns(RequiredColumns, rows[0]);
      if |missing| > 0 then assert missing[0] in missing; Err(ValueError)
      else Ok(rows)
  }

  // ----- the crop ------------------------------------------------------------------------

  datatype Crop = Crop(x: int, y: int, w: int, h: int)

  /** int(row[key]): KeyError for an absent column, TypeError for None, ValueError for bad text. */
  function IntField(row: Row, key: string): (r: Result<int>)
    ensures r.Err? <==> key !in row || row[key].None? || ParseInt(row[key].value, 10).None?
    ensures r.Ok? ==> r.value == ParseInt(row[key].value, 10).value
    ensures key !in row ==> r == Err(KeyError)
    ensures key in row && row[key].None? ==> r == Err(TypeError)
  {
    if key !in row then Err(KeyError)
    else match row[key]
      case None => Err(TypeError)
      case Some(t) =>
        match ParseInt(t, 10)
        case Some(n) => Ok(n)
        case None => Err(ValueError)
  }

  /** The four crop fields in source order; the first failure is the one raised. */
  function ParseCrop(row: Row): (r: Result<Crop>)
    ensures r.Ok? <==> (IntField(row, "crop_x").Ok? && IntField(row, "crop_y").Ok?
                        && IntField(row, "crop_w").Ok? && IntField(row, "crop_h").Ok?)
    ensures r.Ok? ==> r.value == Crop(IntField(row, "crop_x").value, IntField(row, "crop_y").value,
                                      IntField(row, "crop_w").value, IntField(row, "crop_h").value)
    ensures r.Err? ==> r.error == KeyError || r.error == TypeError || r.error == ValueError
  {
    var x := IntField(row, "crop_x");
    if x.Err? then Err(x.error)
    else
      var y := IntField(row, "crop_y");
      if y.Err? then Err(y.error)
      else
        var w := IntField(row, "crop_w");
        if w.Err? then Err(w.error)
        else
          var h := IntField(row, "crop_h");
          if h.Err? then Err(h.error)
          else Ok(Crop(x.value, y.value, w.value, h.value))
  }

  /** The crop lies inside a panoWidth x panoHeight frame. */
  predicate Inside(c: Crop, panoWidth: int, panoHeight: int)
  {
    0 <= c.x && c.x + c.w <= panoWidth && 0 <= c.y && c.y + c.h <= panoHeight
  }

  /** A crop that selects at least one pixel and lies inside the frame. */
  predicate Usable(c: Crop, panoWidth: int, panoHeight: int)
  {
    Inside(c, panoWidth, panoHeight) && c.w > 0 && c.h > 0
  }

  /**
   * The clamp of render_broadcast: the origin is pulled into the frame, the size cut to what
   * is left, and a crop left without width or height becomes the whole frame. The result
   * lies inside the frame, and is either usable with a size no larger than asked for or the
   * whole frame.
   */
  function ClampCrop(c: Crop, panoWidth: nat, panoHeight: nat): (r: Crop)
    ensures Inside(r, panoWidth, panoHeight)
    ensures r == Crop(0, 0, panoWidth, panoHeight) || (Usable(r, panoWidth, panoHeight) && r.w <= c.w && r.h <= c.h)
  {
    var x := Max(0, Min(c.x, panoWidth - c.w));
    var y := Max(0, Min(c.y, panoHeight - c.h));
    var w := Min(c.w, panoWidth - x);
    var h := Min(c.h, panoHeight - y);
    if w <= 0 || h <= 0 then Crop(0, 0, panoWidth, panoHeight) else Crop(x, y, w, h)
  }

  /** A crop that is already usable passes the clamp unchanged. */
  lemma ClampKeepsUsable(c: Crop, panoWidth: nat, panoHeight: nat)
    requires Usable(c, panoWidth, panoHeight)
    ensures ClampCrop(c, panoWidth, panoHeight) == c
  {
  }

  /** Clamping twice is clamping once. */
  lemma ClampIdempotent(c: Crop, panoWidth: nat, panoHeight: nat)
    ensures ClampCrop(ClampCrop(c, panoWidth, panoHeight), panoWidth, panoHeight)
         == ClampCrop(c, panoWidth, panoHeight)
  {
    var r := ClampCrop(c, panoWidth, panoHeight);
    if Usable(r, panoWidth, panoHeight) {
      ClampKeepsUsable(r, panoWidth, panoHeight);
    }
  }

  /** The crop covers the whole panorama, which render_broadcast letterboxes. */
  predicate FullView(c: Crop, panoWidth: int, panoHeight: int)
  {
    c.w == panoWidth && c.h == panoHeight
  }

  // ----- the letterbox -------------------------------------------------------------------

  /** The full panorama scaled to the output width, scaledHeight rows from row yOffset on. */
  datatype Letterbox = Letterbox(scaledHeight: int, yOffset: int)

  /**
   * The letterbox branch: scale = output_width / crop_w (ZeroDivisionError at width 0),
   * scaled_h = int(crop_h * scale), cv2.resize to (output_width, scaled_h) (an OpenCV error
   * unless both are positive), np.zeros of the output (a ValueError for a negative height),
   * and output[y_offset:y_offset + scaled_h] = scaled, which numpy accepts only when the
   * slice holds scaled_h rows or scaled_h is 1.
   */
  function LetterboxOf(c: Crop, outputWidth: int, outputHeight: int): (r: Result<Letterbox>)
    ensures r.Ok? ==> c.w != 0 && r.value.scaledHeight > 0 && outputWidth > 0 && outputHeight >= 0
    ensures r.Ok? ==> r.value.yOffset == (outputHeight - r.value.scaledHeight) / 2
    ensures r.Ok? && c.w > 0 ==> c.h > 0
    ensures c.w == 0 ==> r == Err(ZeroDivisionError)
  {
    if c.w == 0 then Err(ZeroDivisionError)
    else
      var scaled := ScaledRows(c.h, c.w, outputWidth);
      if outputWidth <= 0 || scaled <= 0 then Err(OpenCvError)
      else if outputHeight < 0 then Err(ValueError)
      else
        var yOffset := (outputHeight - scaled) / 2;
        if SliceLen(yOffset, yOffset + scaled, outputHeight) != scaled && scaled != 1 then Err(ValueError)
        else Ok(Letterbox(scaled, yOffset))
  }

  /** int(h * (ow / w)): the height of an h-row image scaled from width w to width ow. */
  function ScaledRows(h: int, w: int, outputWidth: int): int
    requires w != 0
  {
    Trunc(h as real * (outputWidth as real / w as real))
  }

  /** int(h * (ow / w)) is the integer quotient h * ow // w for non-negative sizes. */
  lemma ScaledHeight(h: int, w: int, outputWidth: int)
    requires h >= 0 && w > 0 && outputWidth >= 0
    ensures ScaledRows(h, w, outputWidth) == (h * outputWidth) / w
  {
    var x := (h * outputWidth) as real;
    assert h as real * (outputWidth as real / w as real) == x / w as real;
    FloorDivByInt(x, w);
  }

  /**
   * A panorama at least as wide, relative to its height, as the output (and not so flat that
   * it scales to no rows) is letterboxed: it is scaled to h * ow // w rows placed inside the
   * output, with the bottom bar as high as the top bar or one row higher.
   */
  /** h * ow // w is at least one row and at most oh rows when h / w lies in [1 / ow, oh / ow]. */
  lemma QuotientBounds(h: int, w: int, outputWidth: int, outputHeight: int)
    requires w > 0 && outputWidth > 0 && outputHeight > 0
    requires h * outputWidth <= outputHeight * w && h * outputWidth >= w
    ensures 1 <= (h * outputWidth) / w <= outputHeight
  {
    var q := (h * outputWidth) / w;
    assert q * w <= h * outputWidth < (q + 1) * w;
  }

  /**
   * A panorama at least as wide, relative to its height, as the output (and not so flat that
   * it scales to no rows) is letterboxed: it is scaled to h * ow // w rows placed inside the
   * output, with the bottom bar as high as the top bar or one row higher.
   */
  lemma LetterboxFits(panoWidth: nat, panoHeight: nat, outputWidth: int, outputHeight: int)
    returns (lb: Letterbox)
    requires panoWidth > 0 && outputWidth > 0 && outputHeight > 0
    requires panoHeight * outputWidth <= outputHeight * panoWidth
    requires panoHeight * outputWidth >= panoWidth
    ensures LetterboxOf(Crop(0, 0, panoWidth, panoHeight), outputWidth, outputHeight) == Ok(lb)
    ensures lb.scaledHeight == (panoHeight * outputWidth) / panoWidth
    ensures 0 <= lb.yOffset && lb.yOffset + lb.scaledHeight <= outputHeight
    ensures 0 <= (outputHeight - lb.yOffset - lb.scaledHeight) - lb.yOffset <= 1
  {
    ScaledHeight(panoHeight, panoWidth, outputWidth);
    QuotientBounds(panoHeight, panoWidth, outputWidth, outputHeight);
    var scaled := (panoHeight * outputWidth) / panoWidth;
    var yOffset := (outputHeight - scaled) / 2;
    assert SliceLen(yOffset, yOffset + scaled, outputHeight) == scaled;
    lb := Letterbox(scaled, yOffset);
  }

  // ----- the scoreboard of a row ---------------------------------------------------------

  /** row.get(key, default) fed to int(): None gives a TypeError, bad text a ValueError. */
  function IntOr(row: Row, key: string, default: int): (r: Option<int>)
    ensures key !in row ==> r == Some(default)
    ensures key in row && row[key].None? ==> r.None?
  {
    if key !in row then Some(default)
    else match row[key]
      case None => None
      case Some(t) => ParseInt(t, 10)
  }

  /** row.get("scoreboard_visible", "true") == "true". */
  predicate VisibleIn(row: Row)
  {
    if "scoreboard_visible" in row then row["scoreboard_visible"] == Some("true") else true
  }

  /** The team names and colours of the broadcast, and its output size. */
  datatype Settings = Settings(homeTeam: string, awayTeam: string, homeColor: string,
                               awayColor: string, outputWidth: int, outputHeight: int)

  const DefaultSettings := Settings("HOME", "AWAY", "#1E5E3A", "#5E1E1E", 1920, 1080)

  /**
   * The ScoreboardState built from a row, or None when a field fails to convert, which
   * render_broadcast catches and writes the frame without a scoreboard.
   */
  function ScoreboardOf(row: Row, s: Settings): (r: Option<Scoreboard.State>)
    ensures r.Some? ==>
      r.value.visible == VisibleIn(row)
      && r.value.homeTeam == s.homeTeam && r.value.awayTeam == s.awayTeam
      && r.value.homeColor == s.homeColor && r.value.awayColor == s.awayColor
      && r.value.position == "bottom" && r.value.offset == 50
  {
    var home := IntOr(row, "home_score", 0);
    var away := IntOr(row, "away_score", 0);
    var clock := IntOr(row, "clock_seconds", 0);
    var half := IntOr(row, "half", 1);
    if home.None? || away.None? || clock.None? || half.None? then None
    else Some(Scoreboard.State(s.homeTeam, s.awayTeam, home.value, away.value, clock.value,
                               half.value, VisibleIn(row), s.homeColor, s.awayColor, "bottom", 50))
  }

  /**
   * A row without any scoreboard column gets the defaults: visible, scores 0 and 0, clock 0,
   * first half. A row whose scoreboard_visible is present but not "true" hides it.
   */
  lemma ScoreboardDefaults(row: Row, s: Settings)
    requires "home_score" !in row && "away_score" !in row && "clock_seconds" !in row && "half" !in row
    ensures ScoreboardOf(row, s).Some?
    ensures var b := ScoreboardOf(row, s).value;
      b.homeScore == 0 && b.awayScore == 0 && b.clockSeconds == 0 && b.half == 1
      && (b.visible <==> "scoreboard_visible" !in row || row["scoreboard_visible"] == Some("true"))
  {
  }

  /**
   * The scoreboard that ends up on the frame: None when building the state fails or when a
   * visible state's colours do not parse (composite_onto_frame raises and the frame is
   * written without it); an invisible state leaves the frame as it is.
   */
  function OverlayOf(row: Row, s: Settings): (r: Option<Scoreboard.State>)
    ensures r.Some? ==> r == ScoreboardOf(row, s) && (r.value.visible ==> Scoreboard.Colours(r.value).Ok?)
    ensures r.None? && ScoreboardOf(row, s).Some? ==> Scoreboard.Colours(ScoreboardOf(row, s).value).Err?
  {
    match ScoreboardOf(row, s)
    case None => None
    case Some(b) => if b.visible && Scoreboard.Colours(b).Err? then None else Some(b)
  }

  // ----- one row -------------------------------------------------------------------------

  /** What one written output frame is made of. */
  datatype OutFrame = OutFrame(crop: Crop, letterbox: Option<Letterbox>,
                               scoreboard: Option<Scoreboard.State>)

  datatype RowOutcome = Skipped | Written(frame: OutFrame) | Crashed(error: ErrorKind)

  /**
   * One iteration of the loop once a source frame was read: bad crop text or a missing crop
   * column skips the row, a None crop value (TypeError) escapes the loop, and otherwise the
   * clamped crop is letterboxed when it is the whole panorama or resized to the output
   * (an OpenCV error for a non-positive output size), and the row's scoreboard is drawn.
   */
  function RowOutcomeOf(row: Row, panoWidth: nat, panoHeight: nat, s: Settings): (o: RowOutcome)
    ensures o.Skipped? <==> ParseCrop(row).Err? && ParseCrop(row).error != TypeError
    ensures o.Written? ==> Usable(o.frame.crop, panoWidth, panoHeight)
    ensures o.Written? ==> (o.frame.letterbox.Some? <==> FullView(o.frame.crop, panoWidth, panoHeight))
    ensures o.Written? ==> ParseCrop(row).Ok? && o.frame.crop == ClampCrop(ParseCrop(row).value, panoWidth, panoHeight)
  {
    match ParseCrop(row)
    case Err(e) => if e == TypeError then Crashed(TypeError) else Skipped
    case Ok(c) =>
      var k := ClampCrop(c, panoWidth, panoHeight);
      if FullView(k, panoWidth, panoHeight) then
        match LetterboxOf(k, s.outputWidth, s.outputHeight)
        case Err(e) => Crashed(e)
        case Ok(lb) => Written(OutFrame(k, Some(lb), OverlayOf(row, s)))
      else if s.outputWidth <= 0 || s.outputHeight <= 0 then Crashed(OpenCvError)
      else Written(OutFrame(k, None, OverlayOf(row, s)))
  }

  // ----- the whole log -------------------------------------------------------------------

  /** The outcome of each row, had a source frame been read for it. */
  function Outcomes(rows: seq<Row>, panoWidth: nat, panoHeight: nat, s: Settings): seq<RowOutcome>
  {
    seq(|rows|, (i: int) requires 0 <= i < |rows| => RowOutcomeOf(rows[i], panoWidth, panoHeight, s))
  }

  /**
   * The frames written, the progress_callback calls made and the error raised, if any, over
   * a run of row outcomes; the loop stops at the first error.
   */
  datatype Progress = Progress(written: seq<OutFrame>, calls: seq<(nat, nat)>, error: Option<ErrorKind>)

  function Accumulate(outs: seq<RowOutcome>, total: nat): (p: Progress)
    ensures |p.written| == |p.calls| <= |outs|
    ensures forall k :: 0 <= k < |p.calls| ==> 1 <= p.calls[k].0 <= |outs| && p.calls[k].1 == total
  {
    if |outs| == 0 then Progress([], [], None)
    else
      var p := Accumulate(outs[..|outs| - 1], total);
      if p.error.Some? then p
      else
        match outs[|outs| - 1]
        case Skipped => p
        case Crashed(e) => p.(error := Some(e))
        case Written(f) => Progress(p.written + [f], p.calls + [(|outs|, total)], None)
  }

  /** Each progress call names the 1-based row whose outcome was writing the matching frame. */
  predicate CallsFromRows(outs: seq<RowOutcome>, p: Progress)
  {
    |p.written| == |p.calls|
    && forall k :: 0 <= k < |p.calls| ==>
         1 <= p.calls[k].0 <= |outs| && outs[p.calls[k].0 - 1] == Written(p.written[k])
  }

  /** The progress calls come in strictly increasing row order. */
  predicate CallsIncreasing(p: Progress)
  {
    forall k, m :: 0 <= k < m < |p.calls| ==> p.calls[k].0 < p.calls[m].0
  }

  /**
   * Each progress call names the 1-based position of the row its frame came from, whose
   * outcome was writing that frame, and the calls come in increasing row order.
   */
  lemma {:induction false} ProgressCounts(outs: seq<RowOutcome>, total: nat)
    ensures CallsFromRows(outs, Accumulate(outs, total))
    ensures CallsIncreasing(Accumulate(outs, total))
  {
    if |outs| > 0 {
      var init := outs[..|outs| - 1];
      ProgressCounts(init, total);
      var p := Accumulate(init, total);
      var q := Accumulate(outs, total);
      if p.error.None? && outs[|outs| - 1].Written? {
        assert q.calls == p.calls + [(|outs|, total)];
        assert q.written == p.written + [outs[|outs| - 1].frame];
      } else {
        assert q.calls == p.calls && q.written == p.written;
      }
      forall k | 0 <= k < |p.calls|
        ensures outs[p.calls[k].0 - 1] == init[p.calls[k].0 - 1]
      {
      }
    }
  }

  /**
   * A run in which every row is written gives one frame per row and progress calls
   * (1, total), (2, total), ..., (N, total), with no error.
   */
  lemma {:induction false} AllRowsWritten(outs: seq<RowOutcome>, total: nat)
    requires forall i :: 0 <= i < |outs| ==> outs[i].Written?
    ensures var p := Accumulate(outs, total);
      p.error.None? && |p.written| == |outs|
      && p.calls == seq(|outs|, (i: int) => (i + 1, total))
  {
    if |outs| > 0 {
      var init := outs[..|outs| - 1];
      AllRowsWritten(init, total);
      var p := Accumulate(init, total);
      assert p.calls + [(|outs|, total)] == seq(|outs|, (i: int) => (i + 1, total));
    }
  }

  /**
   * A skipped row writes nothing, yet the frame counter passes it: the next written row
   * reports its own 1-based place, not the number of frames written so far.
   */
  lemma SkippedRowCounts(outs: seq<RowOutcome>, f: OutFrame, total: nat)
    requires Accumulate(outs, total).error.None?
    ensures Accumulate(outs + [Skipped], total) == Accumulate(outs, total)
    ensures Accumulate(outs + [Skipped, Written(f)], total).calls
         == Accumulate(outs, total).calls + [(|outs| + 2, total)]
  {
    assert (outs + [Skipped])[..|outs|] == outs;
    assert (outs + [Skipped, Written(f)])[..|outs| + 1] == outs + [Skipped];
  }

  /** One more row: what its outcome adds to the frames and calls of the rows before it. */
  lemma AccumulateStep(outs: seq<RowOutcome>, i: nat, total: nat)
    requires i < |outs| && Accumulate(outs[..i], total).error.None?
    ensures var p := Accumulate(outs[..i], total);
      Accumulate(outs[..i + 1], total) == match outs[i]
        case Skipped => p
        case Crashed(e) => p.(error := Some(e))
        case Written(f) => Progress(p.written + [f], p.calls + [(i + 1, total)], None)
  {
    assert outs[..i + 1][..i] == outs[..i];
  }

  /** Once a row has raised, the rows after it change nothing. */
  lemma {:induction false} ErrorStops(outs: seq<RowOutcome>, n: nat, total: nat)
    requires n <= |outs| && Accumulate(outs[..n], total).error.Some?
    ensures Accumulate(outs, total) == Accumulate(outs[..n], total)
  {
    if n < |outs| {
      assert outs[..|outs| - 1][..n] == outs[..n];
      ErrorStops(outs[..|outs| - 1], n, total);
    } else {
      assert outs[..n] == outs;
    }
  }

  /**
   * Every written frame has a crop that selects at least one pixel inside the panorama (the
   * full-frame fallback of an empty panorama never reaches the writer), letterboxed exactly
   * when it is the whole panorama.
   */
  lemma WrittenFramesUsable(rows: seq<Row>, total: nat, panoWidth: nat, panoHeight: nat, s: Settings)
    ensures forall f :: f in Accumulate(Outcomes(rows, panoWidth, panoHeight, s), total).written ==>
      Usable(f.crop, panoWidth, panoHeight) && (f.letterbox.Some? <==> FullView(f.crop, panoWidth, panoHeight))
  {
    var outs := Outcomes(rows, panoWidth, panoHeight, s);
    forall f | f in Accumulate(outs, total).written
      ensures Usable(f.crop, panoWidth, panoHeight) && (f.letterbox.Some? <==> FullView(f.crop, panoWidth, panoHeight))
    {
      var j := WrittenSource(outs, total, f);
      assert outs[j] == RowOutcomeOf(rows[j], panoWidth, panoHeight, s);
    }
  }

  /** A written frame is the frame of some row whose outcome was writing it. */
  lemma WrittenSource(outs: seq<RowOutcome>, total: nat, f: OutFrame) returns (j: nat)
    requires f in Accumulate(outs, total).written
    ensures j < |outs| && outs[j] == Written(f)
  {
    ProgressCounts(outs, total);
    var p := Accumulate(outs, total);
    var k :| 0 <= k < |p.written| && p.written[k] == f;
    j := p.calls[k].0 - 1;
  }

  // ----- logs the interactive viewer writes ----------------------------------------------

  /** The crop the viewer logged is the crop the renderer parses. */
  lemma LoggedCropReadsBack(r: Interactive.LogRow, timestampText: string)
    ensures ParseCrop(LoggedRow(r, timestampText)) == Ok(Crop(r.cropX, r.cropY, r.cropW, r.cropH))
  {
    var row := LoggedRow(r, timestampText);
    LoggedCropCells(r, timestampText);
    IntToStringParses(r.cropX);
    IntToStringParses(r.cropY);
    IntToStringParses(r.cropW);
    IntToStringParses(r.cropH);
    assert IntField(row, "crop_x") == Ok(r.cropX) && IntField(row, "crop_y") == Ok(r.cropY);
    assert IntField(row, "crop_w") == Ok(r.cropW) && IntField(row, "crop_h") == Ok(r.cropH);
  }

  /** A log whose first row the viewer wrote passes read_log's column check. */
  lemma LoggedLogReads(r: Interactive.LogRow, timestampText: string, rest: seq<Row>)
    ensures ReadLog(true, [LoggedRow(r, timestampText)] + rest) == Ok([LoggedRow(r, timestampText)] + rest)
  {
    LoggedCropCells(r, timestampText);
  }

  /**
   * The scoreboard the renderer builds from a logged row carries the logged scores, clock,
   * half and visibility.
   */
  lemma LoggedScoreboardReadsBack(r: Interactive.LogRow, timestampText: string, s: Settings)
    ensures ScoreboardOf(LoggedRow(r, timestampText), s)
         == Some(Scoreboard.State(s.homeTeam, s.awayTeam, r.homeScore, r.awayScore, r.clockSeconds,
                                  r.half, r.visible, s.homeColor, s.awayColor, "bottom", 50))
  {
    var row := LoggedRow(r, timestampText);
    LoggedScoreCells(r, timestampText);
    LoggedClockCells(r, timestampText);
    IntToStringParses(r.homeScore);
    IntToStringParses(r.awayScore);
    IntToStringParses(r.clockSeconds);
    IntToStringParses(r.half);
    assert IntOr(row, "home_score", 0) == Some(r.homeScore);
    assert IntOr(row, "away_score", 0) == Some(r.awayScore);
    assert IntOr(row, "clock_seconds", 0) == Some(r.clockSeconds);
    assert IntOr(row, "half", 1) == Some(r.half);
    assert VisibleIn(row) == r.visible;
  }

  /**
   * A logged row whose crop selects part of the panorama (the viewer zoomed in) is written
   * at the crop it recorded, resized to the output, with the recorded scoreboard whenever
   * the team colours parse.
   */
  lemma LoggedRowRenders(r: Interactive.LogRow, timestampText: string, panoWidth: nat,
                         panoHeight: nat, s: Settings)
    requires Usable(Crop(r.cropX, r.cropY, r.cropW, r.cropH), panoWidth, panoHeight)
    requires !FullView(Crop(r.cropX, r.cropY, r.cropW, r.cropH), panoWidth, panoHeight)
    requires s.outputWidth > 0 && s.outputHeight > 0
    ensures var b := Scoreboard.State(s.homeTeam, s.awayTeam, r.homeScore, r.awayScore,
                                      r.clockSeconds, r.half, r.visible, s.homeColor, s.awayColor,
                                      "bottom", 50);
      RowOutcomeOf(LoggedRow(r, timestampText), panoWidth, panoHeight, s)
      == Written(OutFrame(Crop(r.cropX, r.cropY, r.cropW, r.cropH), None,
                          if r.visible && Scoreboard.Colours(b).Err? then None else Some(b)))
  {
    LoggedCropReadsBack(r, timestampText);
    LoggedScoreboardReadsBack(r, timestampText, s);
    ClampKeepsUsable(Crop(r.cropX, r.cropY, r.cropW, r.cropH), panoWidth, panoHeight);
  }

  // ----- render_broadcast ----------------------------------------------------------------

  /**
   * render_broadcast over a log (its existence and rows), a source video (whether it opens,
   * its size and how many frames can be read) and an output writer (whether it opens).
   * The log is checked first, then the video, then the writer; after that one source frame
   * is read per log row until the video runs out, and the written frames and progress calls
   * are those of the outcomes of the rows that got a frame.
   */
  method RenderBroadcast(logExists: bool, logRows: seq<Row>, videoOpens: bool, panoWidth: nat,
                         panoHeight: nat, sourceFrames: nat, writerOpens: bool, s: Settings,
                         hasCallback: bool, outputPath: string)
    returns (r: Result<string>, written: seq<OutFrame>, calls: seq<(nat, nat)>)
    ensures ReadLog(logExists, logRows).Err? ==>
      r == Err(ReadLog(logExists, logRows).error) && written == [] && calls == []
    ensures ReadLog(logExists, logRows).Ok? && !videoOpens ==>
      r == Err(FileNotFoundError) && written == [] && calls == []
    ensures ReadLog(logExists, logRows).Ok? && videoOpens && !writerOpens ==>
      r == Err(RuntimeError) && written == [] && calls == []
    ensures ReadLog(logExists, logRows).Ok? && videoOpens && writerOpens ==>
      var p := Accumulate(Outcomes(logRows, panoWidth, panoHeight, s)[..Min(|logRows|, sourceFrames)], |logRows|);
      written == p.written && calls == (if hasCallback then p.calls else [])
      && r == (if p.error.Some? then Err(p.error.value) else Ok(outputPath))
  {
    written, calls := [], [];
    var log := ReadLog(logExists, logRows);
    if log.Err? {
      return Err(log.error), written, calls;
    }
    var rows := log.value;
    var total := |rows|;
    if !videoOpens {
      return Err(FileNotFoundError), written, calls;
    }
    if !writerOpens {
      return Err(RuntimeError), written, calls;
    }
    ghost var outs := Outcomes(rows, panoWidth, panoHeight, s);
    ghost var n := Min(|rows|, sourceFrames);
    var frameNum := 0;
    var i := 0;
    while i < |rows|
      invariant 0 <= i <= n && frameNum == i
      invariant var p := Accumulate(outs[..i], total);
        p.error.None? && written == p.written && calls == (if hasCallback then p.calls else [])
    {
      if frameNum == sourceFrames {
        break;
      }
      var outcome := ProcessRow(rows[i], panoWidth, panoHeight, s);
      assert outs[i] == outcome;
      AccumulateStep(outs, i, total);
      if outcome.Crashed? {
        ErrorStops(outs[..n], i + 1, total);
        assert outs[..n][..i + 1] == outs[..i + 1];
        return Err(outcome.error), written, calls;
      }
      frameNum := frameNum + 1;
      if outcome.Written? {
        written := written + [outcome.frame];
        if hasCallback {
          calls := calls + [(frameNum, total)];
        }
      }
      i := i + 1;
    }
    assert i == n;
    return Ok(outputPath), written, calls;
  }

  /** The body of the loop for one row, with the crop variables reassigned step by step. */
  method ProcessRow(row: Row, panoWidth: nat, panoHeight: nat, s: Settings) returns (o: RowOutcome)
    ensures o == RowOutcomeOf(row, panoWidth, panoHeight, s)
  {
    var parsed := ParseCrop(row);
    if parsed.Err? {
      if parsed.error == TypeError {
        return Crashed(TypeError);
      }
      return Skipped;
    }
    var crop := ClampInPlace(parsed.value, panoWidth, panoHeight);
    var letterbox := None;
    if crop.w == panoWidth && crop.h == panoHeight {
      var lb := LetterboxOf(crop, s.outputWidth, s.outputHeight);
      if lb.Err? {
        return Crashed(lb.error);
      }
      letterbox := Some(lb.value);
    } else if s.outputWidth <= 0 || s.outputHeight <= 0 {
      return Crashed(OpenCvError);
    }
    return Written(OutFrame(crop, letterbox, OverlayOf(row, s)));
  }

  /** The clamp as render_broadcast writes it, reassigning the four crop variables in turn. */
  method ClampInPlace(c: Crop, panoWidth: nat, panoHeight: nat) returns (k: Crop)
    ensures k == ClampCrop(c, panoWidth, panoHeight)
  {
    var cropX, cropY, cropW, cropH := c.x, c.y, c.w, c.h;
    cropX := Max(0, Min(cropX, panoWidth - cropW));
    cropY := Max(0, Min(cropY, panoHeight - cropH));
    cropW := Min(cropW, panoWidth - cropX);
    cropH := Min(cropH, panoHeight - cropY);
    if cropW <= 0 || cropH <= 0 {
      cropX, cropY := 0, 0;
      cropW, cropH := panoWidth, panoHeight;
    }
    k := Crop(cropX, cropY, cropW, cropH);
  }
}
