/**
 * calibrate.py: frame extraction dispatch, Lowe's ratio test over the k-nearest-neighbour
 * matches, translation of keypoints back to full-frame coordinates, the canvas and blend-band
 * geometry, and the multi-candidate calibration with its ranking by inlier count.
 *
 * SIFT, BFMatcher.knnMatch, findHomography and perspectiveTransform are foreign calls: their
 * outputs (keypoints, match lists, the homography and inlier mask, the warped corners) are
 * inputs here.
 */
module Calibrate {
  import opened Wrappers
  import opened Arith
  import opened Text
  import opened Json

  // ----- extract_frame ------------------------------------------------------------------

  const ImageExtensions: set<string> := {".jpg", ".jpeg", ".png", ".bmp", ".tiff", ".tif"}

  /** str.rfind for one character: the last index holding c, or -1. */
  function LastIndexOf(s: string, c: char): (i: int)
    ensures -1 <= i < |s|
    ensures i >= 0 ==> s[i] == c
    ensures forall j :: i < j < |s| ==> s[j] != c
  {
    if |s| == 0 then -1
    else if s[|s| - 1] == c then |s| - 1
    else LastIndexOf(s[..|s| - 1], c)
  }

  /**
   * os.path.splitext(path)[1] with POSIX separators: the text from the last '.' when that dot
   * lies in the last path component and is preceded there by some character other than '.'.
   */
  function Extension(path: string): (ext: string)
    ensures ext == "" || (|ext| <= |path| && ext == path[|path| - |ext|..] && ext[0] == '.')
  {
    var sepIndex := LastIndexOf(path, '/');
    var dotIndex := LastIndexOf(path, '.');
    if dotIndex > sepIndex && exists k :: sepIndex + 1 <= k < dotIndex && path[k] != '.' then
      path[dotIndex..]
    else ""
  }

  /** A non-empty extension is one dot followed by text without dots or separators. */
  lemma ExtensionShape(path: string)
    ensures var ext := Extension(path);
      ext != "" ==> '.' !in ext[1..] && '/' !in ext
  {
    var ext := Extension(path);
    if ext != "" {
      var sepIndex := LastIndexOf(path, '/');
      var dotIndex := LastIndexOf(path, '.');
      assert ext == path[dotIndex..];
      forall j | 0 <= j < |ext| ensures ext[j] != '/' && (j > 0 ==> ext[j] != '.') {
        assert ext[j] == path[dotIndex + j];
      }
    }
  }

  /** Where extract_frame takes its frame from. */
  datatype FrameSource = ImageFile | VideoFrame(seek: Option<nat>)

  /**
   * The dispatch: an image file exactly when the lower-cased extension is an image
   * extension; otherwise a video, seeking only for a positive frame index.
   */
  function SourceOf(path: string, frameIndex: int): (s: FrameSource)
    ensures s.ImageFile? <==> Lower(Extension(path)) in ImageExtensions
    ensures s.VideoFrame? ==> (s.seek.Some? <==> frameIndex > 0)
    ensures s.VideoFrame? && s.seek.Some? ==> s.seek.value == frameIndex
  {
    if Lower(Extension(path)) in ImageExtensions then ImageFile
    else if frameIndex > 0 then VideoFrame(Some(frameIndex))
    else VideoFrame(None)
  }

  /**
   * What the path holds: the image cv2.imread decodes (None when it cannot), and the frames
   * cv2.VideoCapture can read (None when it cannot open the file).
   */
  datatype Media<F> = Media(image: Option<F>, video: Option<seq<F>>)

  /** extract_frame(source_path, frame_index). */
  function ExtractFrame<F>(path: string, frameIndex: int, media: Media<F>): (r: Result<F>)
    ensures SourceOf(path, frameIndex).ImageFile? ==>
              (r.Ok? <==> media.image.Some?) && (r.Ok? ==> r.value == media.image.value)
    ensures SourceOf(path, frameIndex).VideoFrame? && media.video.Some? ==>
              var position := if frameIndex > 0 then frameIndex else 0;
              (position < |media.video.value| ==> r == Ok(media.video.value[position]))
              && (position >= |media.video.value| ==> r == Err(RuntimeError))
    ensures r.Err? ==> r.error == FileNotFoundError || r.error == RuntimeError
  {
    match SourceOf(path, frameIndex)
    case ImageFile =>
      if media.image.None? then Err(FileNotFoundError) else Ok(media.image.value)
    case VideoFrame(seek) =>
      if media.video.None? then Err(FileNotFoundError)
      else
        var position := if seek.Some? then seek.value else 0;
        if position < |media.video.value| then Ok(media.video.value[position])
        else Err(RuntimeError)
  }

  /** A name with a one-component extension keeps that extension. */
  lemma ExtensionOfName(stem: string, word: string)
    requires |stem| > 0 && stem[|stem| - 1] != '/' && stem[|stem| - 1] != '.'
    requires '.' !in word && '/' !in word
    ensures Extension(stem + "." + word) == "." + word
  {
    var p := stem + "." + word;
    var dotIndex := LastIndexOf(p, '.');
    var sepIndex := LastIndexOf(p, '/');
    assert p[|stem|] == '.';
    assert forall j :: |stem| < j < |p| ==> p[j] == word[j - |stem| - 1];
    assert dotIndex == |stem|;
    assert sepIndex < |stem| - 1 by {
      assert p[|stem| - 1] != '/';
    }
    assert p[|stem| - 1] != '.';
    assert p[dotIndex..] == "." + word;
  }

  // ----- detect_and_match ---------------------------------------------------------------

  datatype Point = Point(x: real, y: real)

  /** A cv2.DMatch: indices into the left (query) and right (train) keypoints. */
  datatype Match = Match(queryIdx: int, trainIdx: int, distance: real)

  /** The outputs of SIFT detectAndCompute on both overlap regions and of knnMatch(k=2). */
  datatype Features = Features(
    leftDescriptors: bool,
    rightDescriptors: bool,
    leftKeypoints: seq<Point>,
    rightKeypoints: seq<Point>,
    knn: seq<seq<Match>>)

  const MinMatches := 10
  const RatioThreshold := 0.75

  /** Every match knnMatch returned refers to an existing keypoint on each side. */
  predicate IndicesValid(f: Features)
  {
    forall i, j :: 0 <= i < |f.knn| && 0 <= j < |f.knn[i]| ==>
      0 <= f.knn[i][j].queryIdx < |f.leftKeypoints| && 0 <= f.knn[i][j].trainIdx < |f.rightKeypoints|
  }

  predicate PassesRatio(pair: seq<Match>)
    requires |pair| == 2
  {
    pair[0].distance < RatioThreshold * pair[1].distance
  }

  /**
   * The ratio-test loop: each entry must unpack into exactly two matches (ValueError
   * otherwise); the best match is kept when it passes the ratio test.
   */
  function RatioFilter(knn: seq<seq<Match>>): Result<seq<Match>>
  {
    if |knn| == 0 then Ok([])
    else if |knn[0]| != 2 then Err(ValueError)
    else Prepend(if PassesRatio(knn[0]) then [knn[0][0]] else [], RatioFilter(knn[1..]))
  }

  function Prepend<T>(head: seq<T>, r: Result<seq<T>>): Result<seq<T>>
  {
    if r.Ok? then Ok(head + r.value) else r
  }

  /** The loop of calibrate.py's ratio test, appending to good_matches. */
  method RatioTest(knn: seq<seq<Match>>) returns (r: Result<seq<Match>>)
    ensures r == RatioFilter(knn)
  {
    var good: seq<Match> := [];
    var i := 0;
    assert knn[0..] == knn;
    PrependAssoc([], [], RatioFilter(knn));
    while i < |knn|
      invariant 0 <= i <= |knn|
      invariant Prepend(good, RatioFilter(knn[i..])) == RatioFilter(knn)
    {
      var pair := knn[i];
      if |pair| != 2 {
        return Err(ValueError);
      }
      assert knn[i..][1..] == knn[i + 1..];
      var kept := if PassesRatio(pair) then [pair[0]] else [];
      assert RatioFilter(knn[i..]) == Prepend(kept, RatioFilter(knn[i + 1..]));
      PrependAssoc(good, kept, RatioFilter(knn[i + 1..]));
      good := good + kept;
      i := i + 1;
    }
    assert knn[i..] == [];
    assert good + [] == good;
    return Ok(good);
  }

  lemma PrependAssoc<T>(a: seq<T>, b: seq<T>, r: Result<seq<T>>)
    ensures Prepend(a, Prepend(b, r)) == Prepend(a + b, r)
    ensures Prepend([], r) == r
  {
    if r.Ok? {
      assert a + (b + r.value) == (a + b) + r.value;
      assert [] + r.value == r.value;
    }
  }

  /**
   * The ratio test keeps exactly the best matches of the well-formed pairs that pass it, and
   * fails exactly when some entry does not hold two matches.
   */
  lemma {:induction false} RatioFilterSpec(knn: seq<seq<Match>>)
    ensures RatioFilter(knn).Ok? <==> forall i :: 0 <= i < |knn| ==> |knn[i]| == 2
    ensures RatioFilter(knn).Err? ==> RatioFilter(knn).error == ValueError
    ensures RatioFilter(knn).Ok? ==>
      forall m :: m in RatioFilter(knn).value <==>
        exists i :: 0 <= i < |knn| && |knn[i]| == 2 && PassesRatio(knn[i]) && knn[i][0] == m
    ensures RatioFilter(knn).Ok? ==> |RatioFilter(knn).value| <= |knn|
    decreases |knn|
  {
    if |knn| > 0 {
      RatioFilterSpec(knn[1..]);
      if |knn[0]| == 2 && RatioFilter(knn[1..]).Ok? {
        var rest := RatioFilter(knn[1..]).value;
        var g := RatioFilter(knn).value;
        forall m
          ensures m in g <==>
            exists i :: 0 <= i < |knn| && |knn[i]| == 2 && PassesRatio(knn[i]) && knn[i][0] == m
        {
          if m in g {
            if PassesRatio(knn[0]) && m == knn[0][0] {
            } else {
              assert m in rest;
              var i :| 0 <= i < |knn[1..]| && |knn[1..][i]| == 2 && PassesRatio(knn[1..][i])
                       && knn[1..][i][0] == m;
              assert knn[i + 1] == knn[1..][i];
            }
          }
          if exists i :: 0 <= i < |knn| && |knn[i]| == 2 && PassesRatio(knn[i]) && knn[i][0] == m {
            var i :| 0 <= i < |knn| && |knn[i]| == 2 && PassesRatio(knn[i]) && knn[i][0] == m;
            if i > 0 {
              assert knn[1..][i - 1] == knn[i];
              assert m in rest;
            }
          }
        }
      }
      if forall i :: 0 <= i < |knn| ==> |knn[i]| == 2 {
        assert forall i :: 0 <= i < |knn[1..]| ==> |knn[1..][i]| == 2 by {
          forall i | 0 <= i < |knn[1..]| ensures |knn[1..][i]| == 2 {
            assert knn[1..][i] == knn[i + 1];
          }
        }
      } else if |knn[0]| == 2 {
        var i :| 0 <= i < |knn| && |knn[i]| != 2;
        assert knn[1..][i - 1] == knn[i];
      }
    }
  }

  /** int(w_left * (1 - overlap_fraction)): where the left overlap region begins. */
  function OverlapLeftStart(widthLeft: nat, overlapFraction: real): int
  {
    Trunc(widthLeft as real * (1.0 - overlapFraction))
  }

  /**
   * detect_and_match: missing descriptors on either side and too few good matches raise
   * RuntimeError; otherwise one point pair per good match, the left x shifted by the
   * overlap start.
   */
  function DetectAndMatch(widthLeft: nat, overlapFraction: real, minMatches: int, f: Features)
    : (r: Result<(seq<Point>, seq<Point>)>)
    requires IndicesValid(f)
    ensures !f.leftDescriptors || !f.rightDescriptors ==> r == Err(RuntimeError)
    ensures r.Ok? ==> RatioFilter(f.knn).Ok?
    ensures r.Ok? ==>
      var good := RatioFilter(f.knn).value;
      |good| >= minMatches
      && |r.value.0| == |good| && |r.value.1| == |good|
      && (forall i :: 0 <= i < |good| ==>
           0 <= good[i].queryIdx < |f.leftKeypoints| && 0 <= good[i].trainIdx < |f.rightKeypoints|)
      && forall i :: 0 <= i < |good| ==>
           r.value.0[i] == Point(f.leftKeypoints[good[i].queryIdx].x
                                 + OverlapLeftStart(widthLeft, overlapFraction) as real,
                                 f.leftKeypoints[good[i].queryIdx].y)
           && r.value.1[i] == f.rightKeypoints[good[i].trainIdx]
    ensures f.leftDescriptors && f.rightDescriptors && RatioFilter(f.knn).Ok? ==>
      (r.Err? <==> |RatioFilter(f.knn).value| < minMatches)
  {
    if !f.leftDescriptors || !f.rightDescriptors then Err(RuntimeError)
    else
      var filtered := RatioFilter(f.knn);
      if filtered.Err? then Err(filtered.error)
      else
        var good := filtered.value;
        if |good| < minMatches then Err(RuntimeError)
        else
          GoodIndicesValid(f);
          var start := OverlapLeftStart(widthLeft, overlapFraction) as real;
          var left := seq(|good|, i requires 0 <= i < |good| =>
            Point(f.leftKeypoints[good[i].queryIdx].x + start, f.leftKeypoints[good[i].queryIdx].y));
          var right := seq(|good|, i requires 0 <= i < |good| => f.rightKeypoints[good[i].trainIdx]);
          Ok((left, right))
  }

  /** Kept matches come from knnMatch, so their indices are valid. */
  lemma GoodIndicesValid(f: Features)
    requires IndicesValid(f) && RatioFilter(f.knn).Ok?
    ensures forall m :: m in RatioFilter(f.knn).value ==>
      0 <= m.queryIdx < |f.leftKeypoints| && 0 <= m.trainIdx < |f.rightKeypoints|
  {
    RatioFilterSpec(f.knn);
    forall m | m in RatioFilter(f.knn).value
      ensures 0 <= m.queryIdx < |f.leftKeypoints| && 0 <= m.trainIdx < |f.rightKeypoints|
    {
      var i :| 0 <= i < |f.knn| && |f.knn[i]| == 2 && PassesRatio(f.knn[i]) && f.knn[i][0] == m;
      assert 0 <= 0 < |f.knn[i]|;
    }
  }

  // ----- compute_homography -------------------------------------------------------------

  /** cv2.findHomography's outputs: the matrix (None on failure) and the RANSAC inlier mask. */
  datatype Fit = Fit(homography: Option<seq<seq<real>>>, inlierMask: Option<seq<bool>>)

  function CountTrue(s: seq<bool>): (n: nat)
    ensures n <= |s|
  {
    if |s| == 0 then 0 else (if s[0] then 1 else 0) + CountTrue(s[1..])
  }

  /** int(mask.sum()) if mask is not None else len(pts_left). */
  function NumInliers(fit: Fit, numMatches: nat): nat
  {
    if fit.inlierMask.Some? then CountTrue(fit.inlierMask.value) else numMatches
  }

  // ----- compute_canvas_and_blend -------------------------------------------------------

  /** The canvas size, the blend band and the translation that keeps every pixel positive. */
  datatype Geometry = Geometry(
    canvasWidth: int, canvasHeight: int,
    blendStart: int, blendEnd: int,
    offsetX: int, offsetY: int)

  function MinX(ps: seq<Point>): real
    requires |ps| > 0
  {
    if |ps| == 1 then ps[0].x else MinReal(ps[0].x, MinX(ps[1..]))
  }

  function MaxX(ps: seq<Point>): real
    requires |ps| > 0
  {
    if |ps| == 1 then ps[0].x else MaxReal(ps[0].x, MaxX(ps[1..]))
  }

  function MinY(ps: seq<Point>): real
    requires |ps| > 0
  {
    if |ps| == 1 then ps[0].y else MinReal(ps[0].y, MinY(ps[1..]))
  }

  function MaxY(ps: seq<Point>): real
    requires |ps| > 0
  {
    if |ps| == 1 then ps[0].y else MaxReal(ps[0].y, MaxY(ps[1..]))
  }

  /** The minima and maxima bound every point and are attained. */
  lemma {:induction false} ExtremaBound(ps: seq<Point>)
    requires |ps| > 0
    ensures forall i :: 0 <= i < |ps| ==>
      MinX(ps) <= ps[i].x <= MaxX(ps) && MinY(ps) <= ps[i].y <= MaxY(ps)
    ensures exists i :: 0 <= i < |ps| && ps[i].x == MinX(ps)
    ensures exists i :: 0 <= i < |ps| && ps[i].x == MaxX(ps)
    decreases |ps|
  {
    if |ps| > 1 {
      ExtremaBound(ps[1..]);
      forall i | 0 <= i < |ps|
        ensures MinX(ps) <= ps[i].x <= MaxX(ps) && MinY(ps) <= ps[i].y <= MaxY(ps)
      {
        if i > 0 {
          assert ps[i] == ps[1..][i - 1];
        }
      }
      var j :| 0 <= j < |ps[1..]| && ps[1..][j].x == MinX(ps[1..]);
      assert ps[j + 1].x == MinX(ps[1..]);
      var lowest := if ps[0].x <= MinX(ps[1..]) then 0 else j + 1;
      assert ps[lowest].x == MinX(ps);
      var k :| 0 <= k < |ps[1..]| && ps[1..][k].x == MaxX(ps[1..]);
      assert ps[k + 1].x == MaxX(ps[1..]);
      var highest := if ps[0].x <= MaxX(ps[1..]) then k + 1 else 0;
      assert ps[highest].x == MaxX(ps);
    } else {
      assert ps[0].x == MinX(ps) && ps[0].x == MaxX(ps);
    }
  }

  /** The left frame's corners in the order calibrate.py lists them. */
  function LeftCorners(widthLeft: nat, heightLeft: nat): seq<Point>
  {
    [Point(0.0, 0.0), Point(widthLeft as real, 0.0),
     Point(widthLeft as real, heightLeft as real), Point(0.0, heightLeft as real)]
  }

  /**
   * compute_canvas_and_blend, given the right frame's four corners after perspectiveTransform:
   * the floor/ceil bounding box of all eight corners, and the blend band where the left
   * frame and the warped right frame overlap.
   */
  function ComputeCanvasAndBlend(widthLeft: nat, heightLeft: nat, warped: seq<Point>)
    : (g: Geometry)
    requires |warped| == 4
    ensures g.offsetX <= 0 && g.offsetY <= 0
    ensures g.canvasWidth >= widthLeft && g.canvasHeight >= heightLeft
    ensures -g.offsetX + widthLeft <= g.canvasWidth && -g.offsetY + heightLeft <= g.canvasHeight
    ensures forall i :: 0 <= i < 4 ==>
      g.offsetX as real <= warped[i].x <= (g.offsetX + g.canvasWidth) as real
      && g.offsetY as real <= warped[i].y <= (g.offsetY + g.canvasHeight) as real
    ensures 0 <= g.blendStart
    ensures g.blendEnd <= g.canvasWidth
    ensures g.blendStart == Max((MinX(warped)).Floor - g.offsetX, 0)
    ensures g.blendEnd == Min(widthLeft - g.offsetX, Ceil(MaxX(warped)) - g.offsetX)
  {
    var all := LeftCorners(widthLeft, heightLeft) + warped;
    var xMin := MinX(all).Floor;
    var xMax := Ceil(MaxX(all));
    var yMin := MinY(all).Floor;
    var yMax := Ceil(MaxY(all));
    var warpedXMin := MinX(warped).Floor;
    var warpedXMax := Ceil(MaxX(warped));
    CornerBounds(widthLeft, heightLeft, warped);
    Geometry(xMax - xMin, yMax - yMin, Max(warpedXMin - xMin, 0),
             Min(widthLeft - xMin, warpedXMax - xMin), xMin, yMin)
  }

  lemma CornerBounds(widthLeft: nat, heightLeft: nat, warped: seq<Point>)
    requires |warped| == 4
    ensures var all := LeftCorners(widthLeft, heightLeft) + warped;
      MinX(all) <= 0.0 && MinY(all) <= 0.0
      && MaxX(all) >= widthLeft as real && MaxY(all) >= heightLeft as real
      && MinX(all) <= MinX(warped) && MaxX(warped) <= MaxX(all)
      && (forall i :: 0 <= i < 4 ==>
            MinX(all) <= warped[i].x <= MaxX(all) && MinY(all) <= warped[i].y <= MaxY(all))
  {
    var all := LeftCorners(widthLeft, heightLeft) + warped;
    ExtremaBound(all);
    ExtremaBound(warped);
    assert all[0] == Point(0.0, 0.0);
    assert all[2] == Point(widthLeft as real, heightLeft as real);
    forall i | 0 <= i < 4
      ensures MinX(all) <= warped[i].x <= MaxX(all) && MinY(all) <= warped[i].y <= MaxY(all)
    {
      assert all[i + 4] == warped[i];
    }
    var j :| 0 <= j < 4 && warped[j].x == MinX(warped);
    var k :| 0 <= k < 4 && warped[k].x == MaxX(warped);
    assert all[j + 4] == warped[j] && all[k + 4] == warped[k];
  }

  /** H.tolist(): the rows of the matrix as JSON lists of floats. */
  function MatrixToJson(h: seq<seq<real>>): Json
  {
    JList(seq(|h|, i requires 0 <= i < |h| =>
      JList(seq(|h[i]|, k requires 0 <= k < |h[i]| => JFloat(Finite(h[i][k]))))))
  }

  function ShapeToJson(s: FrameShape): Json
  {
    JList([JInt(s.height), JInt(s.width)])
  }

  /**
   * The JSON object save_calibration writes; calibrate_multi's records add frame_index and
   * inlier_ratio.
   */
  function SaveCalibration(c: Calibration): map<string, Json>
  {
    var base := SavedBase(c);
    var withIndex := if c.frameIndex.Some? then base["frame_index" := JInt(c.frameIndex.value)]
                     else base;
    if c.inlierRatio.Some? then withIndex["inlier_ratio" := JFloat(Finite(c.inlierRatio.value))]
    else withIndex
  }

  /** The keys every saved record holds. */
  function SavedBase(c: Calibration): map<string, Json>
  {
    var g := c.geometry;
    map[
      "homography" := MatrixToJson(c.homography),
      "canvas_width" := JInt(g.canvasWidth),
      "canvas_height" := JInt(g.canvasHeight),
      "blend_x_start" := JInt(g.blendStart),
      "blend_x_end" := JInt(g.blendEnd),
      "offset_x" := JInt(g.offsetX),
      "offset_y" := JInt(g.offsetY),
      "num_matches" := JInt(c.numMatches),
      "num_inliers" := JInt(c.numInliers),
      "left_resolution" := ShapeToJson(c.leftResolution),
      "right_resolution" := ShapeToJson(c.rightResolution),
      "timecode_offset" := JFloat(Finite(0.0))]
  }

  // ----- calibrate / calibrate_multi ----------------------------------------------------

  datatype FrameShape = FrameShape(height: nat, width: nat)

  /** A calibration record; frame_index and inlier_ratio appear only in calibrate_multi's. */
  datatype Calibration = Calibration(
    frameIndex: Option<int>,
    homography: seq<seq<real>>,
    geometry: Geometry,
    numMatches: nat,
    numInliers: nat,
    inlierRatio: Option<real>,
    leftResolution: FrameShape,
    rightResolution: FrameShape)

  /** Everything the foreign calls produce for one attempt at a given frame index. */
  datatype AttemptInputs<F> = AttemptInputs(
    leftMedia: Media<FrameShape>,
    rightMedia: Media<FrameShape>,
    features: Features,
    fit: Fit,
    warpedCorners: seq<Point>)

  predicate WellFormed(a: AttemptInputs)
  {
    IndicesValid(a.features) && |a.warpedCorners| == 4
  }

  /**
   * One calibration attempt at frameIndex, as the body of calibrate_multi's loop computes it:
   * extract both frames, match, fit the homography, compute the geometry.
   */
  function Attempt(leftPath: string, rightPath: string, frameIndex: int,
                   overlapFraction: real, a: AttemptInputs): (r: Result<Calibration>)
    requires WellFormed(a)
    ensures r.Ok? ==>
      r.value.frameIndex == Some(frameIndex)
      && r.value.numInliers == NumInliers(a.fit, r.value.numMatches)
      && r.value.numMatches >= MinMatches
      && a.fit.homography == Some(r.value.homography)
      && r.value.inlierRatio == Some(r.value.numInliers as real / Max(r.value.numMatches, 1) as real)
      && r.value.geometry.offsetX <= 0 && r.value.geometry.offsetY <= 0
      && r.value.geometry.canvasWidth >= r.value.leftResolution.width
      && r.value.geometry.canvasHeight >= r.value.leftResolution.height
    ensures a.fit.homography.None? && r.Ok? ==> false
  {
    var left := ExtractFrame(leftPath, frameIndex, a.leftMedia);
    if left.Err? then Err(left.error)
    else
      var right := ExtractFrame(rightPath, frameIndex, a.rightMedia);
      if right.Err? then Err(right.error)
      else
        var matched := DetectAndMatch(left.value.width, overlapFraction, MinMatches, a.features);
        if matched.Err? then Err(matched.error)
        else if a.fit.homography.None? then Err(RuntimeError)
        else
          var numMatches := |matched.value.0|;
          var numInliers := NumInliers(a.fit, numMatches);
          var g := ComputeCanvasAndBlend(left.value.width, left.value.height, a.warpedCorners);
          Ok(Calibration(Some(frameIndex), a.fit.homography.value, g, numMatches, numInliers,
                         Some(numInliers as real / Max(numMatches, 1) as real),
                         left.value, right.value))
  }

  /** calibrate(): the same pipeline, saved without frame_index and inlier_ratio. */
  function CalibrateOnce(leftPath: string, rightPath: string, frameIndex: int,
                         overlapFraction: real, a: AttemptInputs): (r: Result<Calibration>)
    requires WellFormed(a)
    ensures r.Ok? ==> r.value.frameIndex.None? && r.value.inlierRatio.None?
    ensures r.Err? <==> Attempt(leftPath, rightPath, frameIndex, overlapFraction, a).Err?
  {
    var c := Attempt(leftPath, rightPath, frameIndex, overlapFraction, a);
    if c.Err? then c else Ok(c.value.(frameIndex := None, inlierRatio := None))
  }

  const Percentages: seq<real> := [0.10, 0.25, 0.50, 0.75]

  /** percentages[:n]: a negative n counts from the end, a large one takes them all. */
  function TakePercentages(n: int): (ps: seq<real>)
    ensures |ps| == (if n < 0 then Max(4 + n, 0) else Min(n, 4))
    ensures forall i :: 0 <= i < |ps| ==> ps[i] == Percentages[i]
  {
    var k := if n < 0 then Max(4 + n, 0) else Min(n, 4);
    Percentages[..k]
  }

  /** [min(int(total * p), total - 1) for p in percentages[:num_candidates]]. */
  function CandidateIndices(total: int, numCandidates: int): (idx: seq<int>)
    ensures |idx| == |TakePercentages(numCandidates)|
    ensures forall i :: 0 <= i < |idx| ==> idx[i] == CandidateIndex(total, Percentages[i])
  {
    var ps := TakePercentages(numCandidates);
    seq(|ps|, i requires 0 <= i < |ps| => CandidateIndex(total, ps[i]))
  }

  function CandidateIndex(total: int, p: real): int
  {
    Min(Trunc(total as real * p), total - 1)
  }

  /** With more than one frame every candidate index lies in [0, total - 1], in rising order. */
  lemma CandidateIndicesInRange(total: int, numCandidates: int)
    requires total >= 2
    ensures var idx := CandidateIndices(total, numCandidates);
      (forall i :: 0 <= i < |idx| ==> 0 <= idx[i] <= total - 1)
      && (forall i, j :: 0 <= i < j < |idx| ==> idx[i] <= idx[j])
  {
    var idx := CandidateIndices(total, numCandidates);
    forall i | 0 <= i < |idx| ensures 0 <= idx[i] <= total - 1 {
      IndexInRange(total, Percentages[i]);
    }
    forall i, j | 0 <= i < j < |idx| ensures idx[i] <= idx[j] {
      IndexMonotone(total, Percentages[i], Percentages[j]);
    }
  }

  lemma IndexInRange(total: int, p: real)
    requires total >= 2 && 0.0 <= p
    ensures 0 <= CandidateIndex(total, p) <= total - 1
  {
    assert total as real * p >= 0.0;
  }

  lemma IndexMonotone(total: int, p: real, q: real)
    requires total >= 2 && 0.0 <= p <= q
    ensures CandidateIndex(total, p) <= CandidateIndex(total, q)
  {
    assert total as real * p <= total as real * q;
    assert total as real * p >= 0.0;
    FloorMonotone(total as real * p, total as real * q);
  }

  lemma FloorMonotone(x: real, y: real)
    requires x <= y
    ensures x.Floor <= y.Floor
  {
    assert (x.Floor as real) <= y;
  }

  /**
   * The attempts of calibrate_multi's loop in order: a RuntimeError skips the candidate,
   * any other error ends the whole call, a success is appended.
   */
  function Collect(leftPath: string, rightPath: string, overlapFraction: real,
                   indices: seq<int>, attempt: int -> AttemptInputs<FrameShape>)
    : Result<seq<Calibration>>
    requires forall i :: WellFormed(attempt(i))
  {
    if |indices| == 0 then Ok([])
    else
      var c := Attempt(leftPath, rightPath, indices[0], overlapFraction, attempt(indices[0]));
      if c.Err? && c.error != RuntimeError then Err(c.error)
      else
        var rest := Collect(leftPath, rightPath, overlapFraction, indices[1..], attempt);
        if rest.Err? then rest
        else Ok((if c.Ok? then [c.value] else []) + rest.value)
  }

  /** Inserts c before the first record whose inlier count is not larger (stable). */
  function InsertByInliers(c: Calibration, sorted: seq<Calibration>): (r: seq<Calibration>)
    ensures multiset(r) == multiset{c} + multiset(sorted)
    ensures |r| == |sorted| + 1
  {
    if |sorted| == 0 || sorted[0].numInliers <= c.numInliers then [c] + sorted
    else
      assert sorted == [sorted[0]] + sorted[1..];
      [sorted[0]] + InsertByInliers(c, sorted[1..])
  }

  /** results.sort(key=lambda r: r["num_inliers"], reverse=True): stable, descending. */
  function SortByInliers(s: seq<Calibration>): (r: seq<Calibration>)
    ensures multiset(r) == multiset(s)
    ensures |r| == |s|
  {
    if |s| == 0 then []
    else
      assert s == [s[0]] + s[1..];
      InsertByInliers(s[0], SortByInliers(s[1..]))
  }

  predicate DescendingByInliers(s: seq<Calibration>)
  {
    forall i, j :: 0 <= i < j < |s| ==> s[i].numInliers >= s[j].numInliers
  }

  /** The records with a given inlier count, in order. */
  function WithInliers(s: seq<Calibration>, k: nat): seq<Calibration>
  {
    if |s| == 0 then []
    else (if s[0].numInliers == k then [s[0]] else []) + WithInliers(s[1..], k)
  }

  lemma {:induction false} InsertKeepsOrder(c: Calibration, s: seq<Calibration>)
    requires DescendingByInliers(s)
    ensures DescendingByInliers(InsertByInliers(c, s))
    decreases |s|
  {
    var r := InsertByInliers(c, s);
    if |s| > 0 && s[0].numInliers > c.numInliers {
      InsertKeepsOrder(c, s[1..]);
      var t := InsertByInliers(c, s[1..]);
      assert r == [s[0]] + t;
      assert multiset(t) == multiset{c} + multiset(s[1..]);
      forall j | 0 < j < |r| ensures r[0].numInliers >= r[j].numInliers {
        assert r[j] in multiset(t);
        if r[j] == c {
        } else {
          assert r[j] in multiset(s[1..]);
          var k :| 0 <= k < |s[1..]| && s[1..][k] == r[j];
          assert s[k + 1] == r[j];
        }
      }
    }
  }

  /** The ranking is descending by inlier count. */
  lemma {:induction false} SortDescending(s: seq<Calibration>)
    ensures DescendingByInliers(SortByInliers(s))
    decreases |s|
  {
    if |s| > 0 {
      SortDescending(s[1..]);
      InsertKeepsOrder(s[0], SortByInliers(s[1..]));
    }
  }

  lemma {:induction false} InsertStable(c: Calibration, s: seq<Calibration>, k: nat)
    requires DescendingByInliers(s)
    ensures WithInliers(InsertByInliers(c, s), k) == WithInliers([c] + s, k)
    decreases |s|
  {
    if |s| > 0 && s[0].numInliers > c.numInliers {
      InsertStable(c, s[1..], k);
      var t := InsertByInliers(c, s[1..]);
      assert ([s[0]] + t)[1..] == t;
      assert ([c] + s)[1..] == s;
      assert ([c] + s[1..])[1..] == s[1..];
      assert ([s[0]] + s[1..]) == s;
      if k == c.numInliers {
        // s[0] has a larger count, so it does not carry key k.
        assert WithInliers([s[0]] + t, k) == WithInliers(t, k);
        assert WithInliers(s, k) == WithInliers(s[1..], k);
      } else {
        assert WithInliers([c] + s, k) == WithInliers(s, k);
        assert WithInliers([c] + s[1..], k) == WithInliers(s[1..], k);
      }
    } else {
      assert InsertByInliers(c, s) == [c] + s;
    }
  }

  /** Stability: records with equal inlier counts keep their original relative order. */
  lemma {:induction false} SortStable(s: seq<Calibration>, k: nat)
    ensures WithInliers(SortByInliers(s), k) == WithInliers(s, k)
    decreases |s|
  {
    if |s| > 0 {
      SortStable(s[1..], k);
      SortDescending(s[1..]);
      InsertStable(s[0], SortByInliers(s[1..]), k);
      var t := SortByInliers(s[1..]);
      assert ([s[0]] + t)[1..] == t;
      assert s == [s[0]] + s[1..];
    }
  }

  /**
   * calibrate_multi. Opening the left video fails with FileNotFoundError; with at most one
   * frame a single calibrate() at index 0 runs and its errors propagate; otherwise each
   * candidate index is attempted, RuntimeError failures skipped, and the successes ranked by
   * inlier count. persisted is the record written to the calibration file: calibrate()'s
   * own record, or the best candidate; nothing is written on an error.
   */
  method CalibrateMulti(leftPath: string, rightPath: string, leftOpens: bool, totalFrames: int,
                        overlapFraction: real, numCandidates: int,
                        attempt: int -> AttemptInputs<FrameShape>)
    returns (r: Result<seq<Calibration>>, persisted: Option<Calibration>)
    requires forall i :: WellFormed(attempt(i))
    ensures !leftOpens ==> r == Err(FileNotFoundError)
    ensures leftOpens && totalFrames <= 1 ==>
      var single := CalibrateOnce(leftPath, rightPath, 0, overlapFraction, attempt(0));
      (single.Ok? ==> r == Ok([single.value]) && persisted == Some(single.value))
      && (single.Err? ==> r == Err(single.error))
    ensures leftOpens && totalFrames > 1 ==>
      var collected := Collect(leftPath, rightPath, overlapFraction,
                               CandidateIndices(totalFrames, numCandidates), attempt);
      (collected.Err? ==> r == Err(collected.error))
      && (collected.Ok? && |collected.value| == 0 ==> r == Err(RuntimeError))
      && (collected.Ok? && |collected.value| > 0 ==>
            r == Ok(SortByInliers(collected.value)) && persisted == Some(r.value[0]))
    ensures r.Ok? ==> |r.value| > 0
    ensures r.Err? ==> persisted == None
  {
    persisted := None;
    if !leftOpens {
      return Err(FileNotFoundError), None;
    }
    if totalFrames <= 1 {
      var single := CalibrateOnce(leftPath, rightPath, 0, overlapFraction, attempt(0));
      if single.Err? {
        return Err(single.error), None;
      }
      // calibrate() saves its record through save_calibration.
      return Ok([single.value]), Some(single.value);
    }
    var collected := CollectCandidates(leftPath, rightPath, overlapFraction,
                                       CandidateIndices(totalFrames, numCandidates), attempt);
    if collected.Err? {
      return collected, None;
    }
    var results := collected.value;
    if |results| == 0 {
      return Err(RuntimeError), None;
    }
    results := SortByInliers(results);
    persisted := Some(results[0]);
    return Ok(results), persisted;
  }

  /** The loop of calibrate_multi over the candidate indices, appending to results. */
  method CollectCandidates(leftPath: string, rightPath: string, overlapFraction: real,
                           indices: seq<int>, attempt: int -> AttemptInputs<FrameShape>)
    returns (r: Result<seq<Calibration>>)
    requires forall i :: WellFormed(attempt(i))
    ensures r == Collect(leftPath, rightPath, overlapFraction, indices, attempt)
  {
    var results: seq<Calibration> := [];
    var i := 0;
    assert indices[0..] == indices;
    PrependAssoc([], [], Collect(leftPath, rightPath, overlapFraction, indices, attempt));
    while i < |indices|
      invariant 0 <= i <= |indices|
      invariant Prepend(results, Collect(leftPath, rightPath, overlapFraction, indices[i..], attempt))
                == Collect(leftPath, rightPath, overlapFraction, indices, attempt)
    {
      var idx := indices[i];
      var c := Attempt(leftPath, rightPath, idx, overlapFraction, attempt(idx));
      CollectUnfold(leftPath, rightPath, overlapFraction, indices[i..], attempt);
      assert indices[i..][1..] == indices[i + 1..];
      var rest := Collect(leftPath, rightPath, overlapFraction, indices[i + 1..], attempt);
      if c.Err? && c.error != RuntimeError {
        return Err(c.error);
      }
      var kept := if c.Ok? then [c.value] else [];
      PrependAssoc(results, kept, rest);
      results := results + kept;
      i := i + 1;
    }
    assert indices[i..] == [];
    assert results + [] == results;
    return Ok(results);
  }

  lemma CollectUnfold(leftPath: string, rightPath: string, overlapFraction: real,
                      indices: seq<int>, attempt: int -> AttemptInputs<FrameShape>)
    requires forall i :: WellFormed(attempt(i))
    requires |indices| > 0
    ensures var c := Attempt(leftPath, rightPath, indices[0], overlapFraction, attempt(indices[0]));
      var rest := Collect(leftPath, rightPath, overlapFraction, indices[1..], attempt);
      Collect(leftPath, rightPath, overlapFraction, indices, attempt)
        == if c.Err? && c.error != RuntimeError then Err(c.error)
           else Prepend(if c.Ok? then [c.value] else [], rest)
  {
  }

  /** The persisted record has the largest inlier count of all successful candidates. */
  lemma BestHasMostInliers(s: seq<Calibration>)
    requires |s| > 0
    ensures forall c :: c in s ==> SortByInliers(s)[0].numInliers >= c.numInliers
  {
    SortDescending(s);
    var t := SortByInliers(s);
    forall c | c in s ensures t[0].numInliers >= c.numInliers {
      assert c in multiset(t);
      var j :| 0 <= j < |t| && t[j] == c;
    }
  }

  /** Every successful candidate carries its frame index and ratio = inliers / max(matches, 1). */
  lemma {:induction false} CollectedRecords(leftPath: string, rightPath: string,
      overlapFraction: real, indices: seq<int>, attempt: int -> AttemptInputs<FrameShape>)
    requires forall i :: WellFormed(attempt(i))
    ensures var r := Collect(leftPath, rightPath, overlapFraction, indices, attempt);
      r.Ok? ==> |r.value| <= |indices| && forall c :: c in r.value ==>
        c.frameIndex.Some? && c.frameIndex.value in indices
        && c.inlierRatio == Some(c.numInliers as real / Max(c.numMatches, 1) as real)
    ensures var r := Collect(leftPath, rightPath, overlapFraction, indices, attempt);
      r.Err? ==> r.error != RuntimeError
    decreases |indices|
  {
    if |indices| > 0 {
      CollectedRecords(leftPath, rightPath, overlapFraction, indices[1..], attempt);
      var r := Collect(leftPath, rightPath, overlapFraction, indices, attempt);
      var rest := Collect(leftPath, rightPath, overlapFraction, indices[1..], attempt);
      if r.Ok? {
        assert rest.Ok?;
        forall c | c in rest.value ensures c.frameIndex.value in indices {
          assert c.frameIndex.value in indices[1..];
        }
      }
    }
  }
}
