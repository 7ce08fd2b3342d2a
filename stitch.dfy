/**
 * stitch.py apart from stitch_frame: the timecode parser behind detect_timecode_offset, the
 * validation of the calibration record, and the frame bookkeeping of stitch_videos (skipping
 * frames on the leading camera, the expected count, the read/stitch/write loop).
 *
 * ffprobe, VideoCapture and VideoWriter are foreign: the timecode tags, the frames each
 * stream yields, the frame counts the containers report and whether the writer opened are
 * inputs here.
 */
module Stitch {
  import opened Wrappers
  import opened Arith
  import opened Text
  import opened Json
  import Calibrate
  import StitchFrame

  // ----- timecode_to_seconds / detect_timecode_offset ------------------------------------

  /** The frame rate timecode_to_seconds assumes for the frame field. */
  const TimecodeFps := 30.0

  /** The fields of a timecode once a drop-frame ';' is read as ':'. */
  function TimecodeFields(tc: string): (parts: seq<string>)
    ensures |parts| >= 1
    ensures forall i :: 0 <= i < |parts| ==> ';' !in parts[i] && ':' !in parts[i]
  {
    var normal := Replace(tc, ';', ':');
    ReplaceRemoves(tc, ';', ':');
    var parts := Split(normal, ':');
    assert forall i :: 0 <= i < |parts| ==> ';' !in parts[i] by {
      forall i | 0 <= i < |parts| ensures ';' !in parts[i] {
        if ';' in parts[i] {
          JoinContains(parts, ':', i);
        }
      }
    }
    parts
  }

  /** A character of one part occurs in the joined text. */
  lemma {:induction false} JoinContains(parts: seq<string>, sep: char, i: nat)
    requires i < |parts|
    ensures forall c :: c in parts[i] ==> c in Join(parts, sep)
    decreases |parts|
  {
    if i > 0 {
      JoinContains(parts[1..], sep, i - 1);
      assert parts[1..][i - 1] == parts[i];
    }
  }

  /**
   * timecode_to_seconds: "HH:MM:SS:FF" gives h*3600 + m*60 + s + f/30, "HH:MM:SS.mmm" gives
   * h*3600 + m*60 + float(s), any other number of fields gives None; a field that does not
   * parse is the ValueError int() or float() raises.
   */
  function TimecodeToSeconds(tc: string): (r: Result<Option<real>>)
    ensures r.Err? ==> r.error == ValueError
    ensures r.Ok? && r.value.None? <==> |TimecodeFields(tc)| != 3 && |TimecodeFields(tc)| != 4
  {
    SecondsOfFields(TimecodeFields(tc))
  }

  /** The value of the split fields, as timecode_to_seconds computes it. */
  function SecondsOfFields(parts: seq<string>): (r: Result<Option<real>>)
    ensures r.Err? ==> r.error == ValueError
    ensures r.Ok? && r.value.None? <==> |parts| != 3 && |parts| != 4
  {
    if |parts| == 4 then
      var h := ParseInt(parts[0], 10);
      var m := ParseInt(parts[1], 10);
      var s := ParseInt(parts[2], 10);
      var f := ParseInt(parts[3], 10);
      if h.None? || m.None? || s.None? || f.None? then Err(ValueError)
      else Ok(Some((h.value * 3600 + m.value * 60 + s.value) as real + f.value as real / TimecodeFps))
    else if |parts| == 3 then
      var h := ParseInt(parts[0], 10);
      var m := ParseInt(parts[1], 10);
      var s := ParseFloat(parts[2]);
      if h.None? || m.None? || s.None? then Err(ValueError)
      else Ok(Some((h.value * 3600 + m.value * 60) as real + s.value))
    else Ok(None)
  }

  /** The seconds a timecode stands for, when it parses to a value. */
  predicate ParsesTo(tc: string, secs: real)
  {
    TimecodeToSeconds(tc) == Ok(Some(secs))
  }

  /**
   * The offset from the two parsed tags: the left tag's error wins over the right's, a tag
   * with the wrong number of fields gives None, otherwise right minus left.
   */
  function Difference(left: Result<Option<real>>, right: Result<Option<real>>)
    : (r: Result<Option<real>>)
    ensures r.Ok? && r.value.Some? <==>
      left.Ok? && left.value.Some? && right.Ok? && right.value.Some?
    ensures r.Ok? && r.value.Some? ==> r.value.value == right.value.value - left.value.value
    ensures left.Err? ==> r == left
    ensures left.Ok? && right.Err? ==> r == right
  {
    if left.Err? then left
    else if right.Err? then right
    else if left.value.None? || right.value.None? then Ok(None)
    else Ok(Some(right.value.value - left.value.value))
  }

  /**
   * detect_timecode_offset once ffprobe has produced both tags: None when either tag is
   * missing, otherwise the difference of the parsed tags.
   */
  function DetectTimecodeOffset(tcLeft: Option<string>, tcRight: Option<string>)
    : (r: Result<Option<real>>)
    ensures tcLeft.None? || tcRight.None? ==> r == Ok(None)
    ensures tcLeft.Some? && tcRight.Some? ==>
      r == Difference(TimecodeToSeconds(tcLeft.value), TimecodeToSeconds(tcRight.value))
  {
    if tcLeft.None? || tcRight.None? then Ok(None)
    else Difference(TimecodeToSeconds(tcLeft.value), TimecodeToSeconds(tcRight.value))
  }

  /** Swapping the cameras negates the offset. */
  lemma OffsetAntisymmetric(a: string, b: string, d: real)
    requires DetectTimecodeOffset(Some(a), Some(b)) == Ok(Some(d))
    ensures DetectTimecodeOffset(Some(b), Some(a)) == Ok(Some(-d))
  {
    DifferenceSwap(TimecodeToSeconds(a), TimecodeToSeconds(b), d);
  }

  lemma DifferenceSwap(x: Result<Option<real>>, y: Result<Option<real>>, d: real)
    requires Difference(x, y) == Ok(Some(d))
    ensures Difference(y, x) == Ok(Some(-d))
  {
  }

  /** A non-drop ("HH:MM:SS:FF") or drop-frame ("HH:MM:SS;FF") timecode with padded fields. */
  function TimecodeText(h: nat, m: nat, s: nat, f: nat, dropFrame: bool): string
  {
    Pad2(h) + ":" + Pad2(m) + ":" + Pad2(s) + (if dropFrame then ";" else ":") + Pad2(f)
  }

  /** A four-field timecode reads back as h*3600 + m*60 + s + f/30 seconds. */
  lemma TimecodeReadsBack(h: nat, m: nat, s: nat, f: nat, dropFrame: bool)
    ensures ParsesTo(TimecodeText(h, m, s, f, dropFrame),
                     (h * 3600 + m * 60 + s) as real + f as real / TimecodeFps)
  {
    TimecodeTextFields(h, m, s, f, dropFrame);
    PaddedFieldsValue(h, m, s, f);
  }

  lemma PaddedFieldsValue(h: nat, m: nat, s: nat, f: nat)
    ensures SecondsOfFields([Pad2(h), Pad2(m), Pad2(s), Pad2(f)])
            == Ok(Some((h * 3600 + m * 60 + s) as real + f as real / TimecodeFps))
  {
    Pad2Parses(h);
    Pad2Parses(m);
    Pad2Parses(s);
    Pad2Parses(f);
    FourFieldsValue([Pad2(h), Pad2(m), Pad2(s), Pad2(f)], h, m, s, f);
  }

  lemma FourFieldsValue(parts: seq<string>, h: int, m: int, s: int, f: int)
    requires |parts| == 4
    requires ParseInt(parts[0], 10) == Some(h) && ParseInt(parts[1], 10) == Some(m)
    requires ParseInt(parts[2], 10) == Some(s) && ParseInt(parts[3], 10) == Some(f)
    ensures SecondsOfFields(parts)
            == Ok(Some((h * 3600 + m * 60 + s) as real + f as real / TimecodeFps))
  {
  }

  /** The text splits back into its four padded fields, whichever separator precedes the frames. */
  lemma TimecodeTextFields(h: nat, m: nat, s: nat, f: nat, dropFrame: bool)
    ensures TimecodeFields(TimecodeText(h, m, s, f, dropFrame))
            == [Pad2(h), Pad2(m), Pad2(s), Pad2(f)]
  {
    var parts := [Pad2(h), Pad2(m), Pad2(s), Pad2(f)];
    NoSemicolon(h);
    NoSemicolon(m);
    NoSemicolon(s);
    NoSemicolon(f);
    assert forall i :: 0 <= i < 4 ==> ':' !in parts[i];
    TimecodeNormalised(h, m, s, f, dropFrame);
    JoinFour(parts);
    SplitJoin(parts, ':');
  }

  /** Reading ';' as ':' turns either form into the four fields joined by ':'. */
  lemma TimecodeNormalised(h: nat, m: nat, s: nat, f: nat, dropFrame: bool)
    ensures Replace(TimecodeText(h, m, s, f, dropFrame), ';', ':')
            == Pad2(h) + ":" + Pad2(m) + ":" + Pad2(s) + ":" + Pad2(f)
  {
    var head := Pad2(h) + ":" + Pad2(m) + ":" + Pad2(s);
    var sep := if dropFrame then ";" else ":";
    NoSemicolon(h);
    NoSemicolon(m);
    NoSemicolon(s);
    NoSemicolon(f);
    assert ';' !in head;
    assert TimecodeText(h, m, s, f, dropFrame) == (head + sep) + Pad2(f);
    ReplaceConcat(head + sep, Pad2(f), ';', ':');
    ReplaceConcat(head, sep, ';', ':');
    ReplaceAbsent(head, ';', ':');
    ReplaceAbsent(Pad2(f), ';', ':');
    assert Replace(sep, ';', ':') == ":";
    assert Replace(head + sep, ';', ':') == head + ":";
  }

  lemma NoSemicolon(n: nat)
    ensures ';' !in Pad2(n) && ':' !in Pad2(n)
  {
    Pad2Digits(n);
    DigitsHaveNoSeparators(Pad2(n));
  }

  lemma DigitsHaveNoSeparators(t: string)
    requires AllDigits(t, 10)
    ensures ';' !in t && ':' !in t
  {
  }

  lemma JoinFour(parts: seq<string>)
    requires |parts| == 4
    ensures Join(parts, ':') == parts[0] + ":" + parts[1] + ":" + parts[2] + ":" + parts[3]
  {
    var tail2 := parts[2..];
    assert tail2[1..] == [parts[3]];
    assert Join(tail2, ':') == parts[2] + ":" + parts[3];
    var tail1 := parts[1..];
    assert tail1[1..] == tail2;
    assert Join(tail1, ':') == parts[1] + ":" + Join(tail2, ':');
    assert Join(parts, ':') == parts[0] + ":" + Join(tail1, ':');
  }

  /** Two tags that parse give the difference of the instants they name. */
  lemma OffsetOfParsed(tcLeft: string, tcRight: string, a: real, b: real)
    requires ParsesTo(tcLeft, a) && ParsesTo(tcRight, b)
    ensures DetectTimecodeOffset(Some(tcLeft), Some(tcRight)) == Ok(Some(b - a))
  {
    DifferenceOfValues(TimecodeToSeconds(tcLeft), TimecodeToSeconds(tcRight), a, b);
  }

  lemma DifferenceOfValues(x: Result<Option<real>>, y: Result<Option<real>>, a: real, b: real)
    requires x == Ok(Some(a)) && y == Ok(Some(b))
    ensures Difference(x, y) == Ok(Some(b - a))
  {
  }

  // ----- calibration validation ----------------------------------------------------------

  const RequiredKeys: seq<string> :=
    ["homography", "canvas_width", "canvas_height", "blend_x_start", "blend_x_end",
     "offset_x", "offset_y"]

  /** The homography and geometry stitch_videos goes on to use. */
  datatype StitchParams = StitchParams(homography: seq<seq<real>>, geometry: Calibrate.Geometry)

  /**
   * float()'s special spellings: after whitespace and an optional sign, "nan", "inf" or
   * "infinity" in any letter case.
   */
  function SpecialFloat(s: string): Option<Float>
  {
    var (neg, body) := SignOf(Strip(s));
    var word := Lower(body);
    if word == "nan" then Some(NaN)
    else if word == "inf" || word == "infinity" then Some(Inf(neg))
    else None
  }

  /**
   * How numpy turns one JSON scalar into a float64: null becomes NaN, booleans and integers
   * their values, text goes through float(); a dict is a TypeError, text that is not a
   * number a ValueError, and so is a list met where a scalar is expected.
   */
  function ElementToFloat(j: Json): (r: Result<Float>)
    ensures r.Err? ==> (r.error == TypeError <==> j.JObject?)
    ensures j.JInt? ==> r == Ok(Finite(j.i as real))
    ensures j.JFloat? ==> r == Ok(j.f)
    ensures j.JStr? && SpecialFloat(j.s).Some? ==> r.Ok? && !r.value.Finite?
    ensures j.JStr? && r.Ok? && r.value.Finite? ==> ParseFloat(j.s) == Some(r.value.v)
  {
    match j
    case JNull => Ok(NaN)
    case JBool(b) => Ok(Finite(if b then 1.0 else 0.0))
    case JInt(i) => Ok(Finite(i as real))
    case JFloat(f) => Ok(f)
    case JStr(s) =>
      var special := SpecialFloat(s);
      if special.Some? then Ok(special.value)
      else
        var v := ParseFloat(s);
        if v.None? then Err(ValueError) else Ok(Finite(v.value))
    case JList(_) => Err(ValueError)
    case JObject(_) => Err(TypeError)
  }

  /** float("nan") is NaN. */
  lemma NanText()
    ensures ElementToFloat(JStr("nan")) == Ok(NaN)
  {
    NoSpaceEnds("nan");
    assert SignOf("nan") == (false, "nan");
    assert Lower("nan") == "nan";
    assert SpecialFloat("nan") == Some(NaN);
  }

  /** float(" -Infinity ") is negative infinity. */
  lemma NegativeInfinityText()
    ensures ElementToFloat(JStr(" -Infinity ")) == Ok(Inf(true))
  {
    NegativeInfinityWord();
  }

  lemma NegativeInfinityWord()
    ensures SpecialFloat(" -Infinity ") == Some(Inf(true))
  {
    StripPadded();
    assert SignOf("-Infinity") == (true, "Infinity");
    LowerInfinity();
  }

  lemma StripPadded()
    ensures Strip(" -Infinity ") == "-Infinity"
  {
    assert TrimStart(" -Infinity ") == "-Infinity ";
    assert TrimEnd("-Infinity ") == "-Infinity";
  }

  lemma LowerInfinity()
    ensures Lower("Infinity") == "infinity"
  {
    var r, t := Lower("Infinity"), "infinity";
    forall i | 0 <= i < |t|
      ensures r[i] == t[i]
    {
      assert r[i] == LowerChar("Infinity"[i]);
    }
  }

  /** Element-wise conversion in order; the first element that fails decides the error. */
  function ToFloats(es: seq<Json>): (r: Result<seq<Float>>)
    ensures r.Ok? <==> forall i :: 0 <= i < |es| ==> ElementToFloat(es[i]).Ok?
    ensures r.Ok? ==>
      |r.value| == |es| && forall i :: 0 <= i < |es| ==> ElementToFloat(es[i]) == Ok(r.value[i])
    ensures r.Err? ==>
      exists i :: 0 <= i < |es| && ElementToFloat(es[i]) == Err(r.error)
        && forall k :: 0 <= k < i ==> ElementToFloat(es[k]).Ok?
  {
    if |es| == 0 then Ok([])
    else
      var head := ElementToFloat(es[0]);
      if head.Err? then Err(head.error)
      else
        var tail := ToFloats(es[1..]);
        if tail.Err? then
          ghost var i :| 0 <= i < |es[1..]| && ElementToFloat(es[1..][i]) == Err(tail.error)
                         && forall k :: 0 <= k < i ==> ElementToFloat(es[1..][k]).Ok?;
          FirstFailureShifts(es, i, tail.error);
          Err(tail.error)
        else
          assert forall i :: 1 <= i < |es| ==> es[i] == es[1..][i - 1];
          Ok([head.value] + tail.value)
  }

  /** The first failing element of es[1..], after an element that converts, is the first of es. */
  lemma FirstFailureShifts(es: seq<Json>, i: nat, e: ErrorKind)
    requires 0 < |es| && ElementToFloat(es[0]).Ok? && i < |es| - 1
    requires ElementToFloat(es[1..][i]) == Err(e)
    requires forall k :: 0 <= k < i ==> ElementToFloat(es[1..][k]).Ok?
    ensures ElementToFloat(es[i + 1]) == Err(e)
    ensures forall k :: 0 <= k < i + 1 ==> ElementToFloat(es[k]).Ok?
  {
    assert es[i + 1] == es[1..][i];
    forall k | 0 <= k < i + 1
      ensures ElementToFloat(es[k]).Ok?
    {
      if k > 0 {
        assert es[k] == es[1..][k - 1];
      }
    }
  }

  /** A JSON list of three lists of three scalars: the only value numpy reads as 3×3. */
  predicate Is3x3Shape(j: Json)
  {
    j.JList? && |j.items| == 3
    && forall i :: 0 <= i < 3 ==>
         j.items[i].JList? && |j.items[i].items| == 3
         && forall k :: 0 <= k < 3 ==> !j.items[i].items[k].JList?
  }

  /** The nine entries in row-major order. */
  function Entries(j: Json): (es: seq<Json>)
    requires Is3x3Shape(j)
    ensures |es| == 9
    ensures forall i, k :: 0 <= i < 3 && 0 <= k < 3 ==> es[3 * i + k] == j.items[i].items[k]
  {
    j.items[0].items + j.items[1].items + j.items[2].items
  }

  predicate Is3x3(h: seq<seq<real>>)
  {
    |h| == 3 && forall i :: 0 <= i < 3 ==> |h[i]| == 3
  }

  /**
   * The shape numpy discovers for a nested list: its length, then the longest prefix the
   * shapes of all its elements share. Text, dicts and other scalars have shape ().
   */
  function Shape(j: Json): (shape: seq<nat>)
    ensures j.JList? ==> |shape| >= 1 && shape[0] == |j.items|
    ensures !j.JList? ==> shape == []
    decreases j, 1
  {
    if !j.JList? then []
    else if |j.items| == 0 then [0]
    else [|j.items|] + SharedShape(j, |j.items|)
  }

  /** The longest prefix shared by the shapes of the first n elements of a list. */
  function SharedShape(j: Json, n: nat): seq<nat>
    requires j.JList? && 0 < n <= |j.items|
    decreases j, 0, n
  {
    if n == 1 then Shape(j.items[0])
    else CommonPrefix(SharedShape(j, n - 1), Shape(j.items[n - 1]))
  }

  function CommonPrefix(a: seq<nat>, b: seq<nat>): (c: seq<nat>)
    ensures |c| <= |a| && |c| <= |b| && c == a[..|c|] && c == b[..|c|]
  {
    if |a| == 0 || |b| == 0 || a[0] != b[0] then []
    else [a[0]] + CommonPrefix(a[1..], b[1..])
  }

  /**
   * The values numpy converts, in row-major order, for an array of `depth` dimensions: the
   * elements at that depth, lists included (numpy cannot store a list in a float64).
   */
  function Leaves(j: Json, depth: nat): seq<Json>
    decreases j, 1
  {
    if depth == 0 || !j.JList? then [j] else LeavesOf(j, |j.items|, depth - 1)
  }

  function LeavesOf(j: Json, n: nat, depth: nat): seq<Json>
    requires j.JList? && n <= |j.items|
    decreases j, 0, n
  {
    if n == 0 then [] else LeavesOf(j, n - 1, depth) + Leaves(j.items[n - 1], depth)
  }

  /** A 3×3 list of scalars has shape (3, 3), and its leaves are its nine entries. */
  lemma ThreeByThreeShape(j: Json)
    requires Is3x3Shape(j)
    ensures Shape(j) == [3, 3] && Leaves(j, 2) == Entries(j)
  {
    forall i | 0 <= i < 3
      ensures Shape(j.items[i]) == [3] && Leaves(j.items[i], 1) == j.items[i].items
    {
      var row := j.items[i];
      assert Shape(row.items[0]) == [] && Shape(row.items[1]) == [] && Shape(row.items[2]) == [];
      assert SharedShape(row, 3) == [];
      assert LeavesOf(row, 1, 0) == [row.items[0]];
      assert LeavesOf(row, 2, 0) == [row.items[0], row.items[1]];
      assert LeavesOf(row, 3, 0) == [row.items[0], row.items[1], row.items[2]];
    }
    assert SharedShape(j, 2) == [3];
    assert SharedShape(j, 3) == [3];
    assert LeavesOf(j, 1, 1) == j.items[0].items;
    assert LeavesOf(j, 2, 1) == j.items[0].items + j.items[1].items;
    assert LeavesOf(j, 3, 1) == j.items[0].items + j.items[1].items + j.items[2].items;
  }

  /**
   * np.array(cal["homography"], dtype=np.float64) followed by the shape check and the
   * NaN/Inf check. numpy converts the leaves of the discovered shape in row-major order, so
   * the first one that does not convert decides the error, and only a dict gives TypeError;
   * an array that converts but is not 3×3 is refused by the shape check.
   */
  function HomographyMatrix(j: Json): (r: Result<seq<seq<real>>>)
    ensures !Is3x3Shape(j) ==> r.Err?
    ensures !Is3x3Shape(j) ==>
      var fs := ToFloats(Leaves(j, |Shape(j)|));
      (fs.Err? ==> r == Err(fs.error)) && (fs.Ok? ==> r == Err(ValueError))
    ensures r.Ok? ==>
      Is3x3Shape(j) && Is3x3(r.value)
      && forall i, k :: 0 <= i < 3 && 0 <= k < 3 ==>
           ElementToFloat(j.items[i].items[k]) == Ok(Finite(r.value[i][k]))
    ensures Is3x3Shape(j) && ToFloats(Entries(j)).Ok?
            && (exists i :: 0 <= i < 9 && !ToFloats(Entries(j)).value[i].Finite?)
            ==> r == Err(ValueError)
  {
    if !Is3x3Shape(j) then
      var fs := ToFloats(Leaves(j, |Shape(j)|));
      if fs.Err? then Err(fs.error) else Err(ValueError)
    else
      ThreeByThreeShape(j);
      var fs := ToFloats(Entries(j));
      if fs.Err? then Err(fs.error)
      else if exists i :: 0 <= i < 9 && !fs.value[i].Finite? then Err(ValueError)
      else
        var h := seq(3, i requires 0 <= i < 3 =>
                   seq(3, k requires 0 <= k < 3 => fs.value[3 * i + k].v));
        assert forall i, k :: 0 <= i < 3 && 0 <= k < 3 ==> fs.value[3 * i + k] == Finite(h[i][k]);
        Ok(h)
  }

  /** A list holding a dict is a TypeError, as float() of the dict is. */
  lemma DictInListHomography()
    ensures HomographyMatrix(JList([JObject(map[])])) == Err(TypeError)
  {
    var d := JObject(map[]);
    var one := JList([d]);
    assert !Is3x3Shape(one);
    assert Shape(one) == [1];
    assert LeavesOf(one, 1, 0) == [d];
    assert ToFloats([d]) == Err(TypeError);
  }

  /** Three rows of one dict each are a TypeError too, not a shape error. */
  lemma DictRowsHomography()
    ensures var row := JList([JObject(map[])]);
      HomographyMatrix(JList([row, row, row])) == Err(TypeError)
  {
    var d := JObject(map[]);
    var rows := JList([JList([d]), JList([d]), JList([d])]);
    assert !Is3x3Shape(rows) by { assert |rows.items[0].items| == 1; }
    SingletonRowsShape(d);
    SingletonRowsLeaves(d);
    assert ToFloats([d, d, d]) == Err(TypeError);
  }

  /** Three rows of one scalar each have shape (3, 1). */
  lemma SingletonRowsShape(d: Json)
    requires !d.JList?
    ensures Shape(JList([JList([d]), JList([d]), JList([d])])) == [3, 1]
  {
    var one := JList([d]);
    var rows := JList([one, one, one]);
    assert Shape(one) == [1];
    assert CommonPrefix([1], [1]) == [1] by { assert CommonPrefix([], []) == []; }
    assert SharedShape(rows, 2) == [1];
    assert SharedShape(rows, 3) == [1];
  }

  /** Three rows of one scalar each convert those three scalars in order. */
  lemma SingletonRowsLeaves(d: Json)
    requires !d.JList?
    ensures Leaves(JList([JList([d]), JList([d]), JList([d])]), 2) == [d, d, d]
  {
    var one := JList([d]);
    var rows := JList([one, one, one]);
    assert Leaves(one, 1) == [d] by { assert LeavesOf(one, 1, 0) == [d]; }
    assert LeavesOf(rows, 1, 1) == [d];
    assert LeavesOf(rows, 2, 1) == [d, d];
  }

  /** A ragged list is refused: [[1, 2], [3]] converts no further than its rows. */
  lemma RaggedHomography()
    ensures HomographyMatrix(JList([JList([JInt(1), JInt(2)]), JList([JInt(3)])])) == Err(ValueError)
  {
  }

  /** Python's `value <= 0` on a JSON value; comparing None, text or a container is a TypeError. */
  function NonPositive(j: Json): (r: Result<bool>)
    ensures j.JInt? ==> r == Ok(j.i <= 0)
    ensures r.Err? <==> !(j.JInt? || j.JBool? || j.JFloat?)
  {
    match j
    case JInt(i) => Ok(i <= 0)
    case JBool(b) => Ok(!b)
    case JFloat(f) =>
      (match f
       case Finite(v) => Ok(v <= 0.0)
       case NaN => Ok(false)
       case Inf(negative) => Ok(negative))
    case _ => Err(TypeError)
  }

  /** The integer a JSON value stands for, if it is one (a bool is an int in Python). */
  function IntValue(j: Json): Option<int>
  {
    match j
    case JInt(i) => Some(i)
    case JBool(b) => Some(if b then 1 else 0)
    case _ => None
  }

  /** Some required key is absent from the record. */
  predicate MissingKey(cal: map<string, Json>)
  {
    exists k :: k in RequiredKeys && k !in cal
  }

  /** Every required key, named one by one. */
  predicate HasRequired(cal: map<string, Json>)
  {
    "homography" in cal && "canvas_width" in cal && "canvas_height" in cal
    && "blend_x_start" in cal && "blend_x_end" in cal && "offset_x" in cal && "offset_y" in cal
  }

  /** No key is missing exactly when each of the seven is present. */
  lemma RequiredPresent(cal: map<string, Json>)
    ensures !MissingKey(cal) <==> HasRequired(cal)
  {
    if HasRequired(cal) {
      forall k | k in RequiredKeys ensures k in cal {
        var i :| 0 <= i < |RequiredKeys| && RequiredKeys[i] == k;
      }
    } else {
      assert "homography" in RequiredKeys && "canvas_width" in RequiredKeys;
      assert "canvas_height" in RequiredKeys && "blend_x_start" in RequiredKeys;
      assert "blend_x_end" in RequiredKeys && "offset_x" in RequiredKeys;
      assert "offset_y" in RequiredKeys;
    }
  }

  /**
   * The checks stitch_videos runs on the calibration record before opening any stream:
   * every required key, then the fields (see CheckFields).
   */
  function ValidateCalibration(cal: map<string, Json>): (r: Result<StitchParams>)
    ensures MissingKey(cal) ==> r == Err(ValueError)
    ensures !MissingKey(cal) ==> HasRequired(cal) && r == CheckFields(cal)
  {
    if MissingKey(cal) then Err(ValueError)
    else
      RequiredPresent(cal);
      CheckFields(cal)
  }

  /**
   * The checks on a record holding every required key: a finite 3×3 homography, a positive
   * canvas width and then height. The blend band and the offsets must be integers (see
   * README, "Left out").
   */
  function CheckFields(cal: map<string, Json>): (r: Result<StitchParams>)
    requires HasRequired(cal)
    ensures r.Ok? ==>
      HomographyMatrix(cal["homography"]) == Ok(r.value.homography)
      && r.value.geometry.canvasWidth > 0 && r.value.geometry.canvasHeight > 0
      && IntValue(cal["canvas_width"]) == Some(r.value.geometry.canvasWidth)
      && IntValue(cal["canvas_height"]) == Some(r.value.geometry.canvasHeight)
      && IntValue(cal["blend_x_start"]) == Some(r.value.geometry.blendStart)
      && IntValue(cal["blend_x_end"]) == Some(r.value.geometry.blendEnd)
      && IntValue(cal["offset_x"]) == Some(r.value.geometry.offsetX)
      && IntValue(cal["offset_y"]) == Some(r.value.geometry.offsetY)
    ensures HomographyMatrix(cal["homography"]).Err? ==>
      r == Err(HomographyMatrix(cal["homography"]).error)
  {
    var h := HomographyMatrix(cal["homography"]);
    if h.Err? then Err(h.error)
    else
      var w := NonPositive(cal["canvas_width"]);
      if w.Err? then Err(w.error)
      else if w.value then Err(ValueError)
      else
        var ht := NonPositive(cal["canvas_height"]);
        if ht.Err? then Err(ht.error)
        else if ht.value then Err(ValueError)
        else
          var cw := IntValue(cal["canvas_width"]);
          var ch := IntValue(cal["canvas_height"]);
          var bs := IntValue(cal["blend_x_start"]);
          var be := IntValue(cal["blend_x_end"]);
          var ox := IntValue(cal["offset_x"]);
          var oy := IntValue(cal["offset_y"]);
          if cw.None? || ch.None? || bs.None? || be.None? || ox.None? || oy.None? then
            Err(TypeError)
          else
            Ok(StitchParams(h.value, Calibrate.Geometry(cw.value, ch.value, bs.value, be.value,
                                                       ox.value, oy.value)))
  }

  /** A zero or negative canvas side is rejected with ValueError, the width checked first. */
  lemma RejectsNonPositiveCanvas(cal: map<string, Json>)
    requires HasRequired(cal) && HomographyMatrix(cal["homography"]).Ok?
    ensures cal["canvas_width"].JInt? && cal["canvas_width"].i <= 0 ==>
      ValidateCalibration(cal) == Err(ValueError)
    ensures cal["canvas_width"].JInt? && cal["canvas_width"].i > 0
            && cal["canvas_height"].JInt? && cal["canvas_height"].i <= 0 ==>
      ValidateCalibration(cal) == Err(ValueError)
  {
    RequiredPresent(cal);
  }

  /** A homography entry that loads as NaN or an infinity is rejected with ValueError. */
  lemma RejectsNonFiniteHomography(cal: map<string, Json>, i: nat, k: nat)
    requires HasRequired(cal) && Is3x3Shape(cal["homography"])
    requires i < 3 && k < 3
    requires ToFloats(Entries(cal["homography"])).Ok?
    requires var e := cal["homography"].items[i].items[k];
      e.JNull? || (e.JFloat? && !e.f.Finite?)
    ensures ValidateCalibration(cal) == Err(ValueError)
  {
    RequiredPresent(cal);
    var j := cal["homography"];
    var fs := ToFloats(Entries(j)).value;
    assert Entries(j)[3 * i + k] == j.items[i].items[k];
    assert !fs[3 * i + k].Finite?;
  }

  /**
   * The record save_calibration writes passes the validation and yields back the homography
   * and geometry it was written from.
   */
  lemma SavedCalibrationValidates(c: Calibrate.Calibration)
    requires Is3x3(c.homography)
    requires c.geometry.canvasWidth > 0 && c.geometry.canvasHeight > 0
    ensures ValidateCalibration(Calibrate.SaveCalibration(c))
            == Ok(StitchParams(c.homography, c.geometry))
  {
    var cal := Calibrate.SaveCalibration(c);
    SavedFields(c);
    RequiredPresent(cal);
    MatrixJsonReadsBack(c.homography);
  }

  /** The saved record holds every required key, each with the value it was saved from. */
  lemma SavedFields(c: Calibrate.Calibration)
    ensures var cal := Calibrate.SaveCalibration(c);
      var g := c.geometry;
      HasRequired(cal)
      && cal["homography"] == Calibrate.MatrixToJson(c.homography)
      && cal["canvas_width"] == JInt(g.canvasWidth) && cal["canvas_height"] == JInt(g.canvasHeight)
      && cal["blend_x_start"] == JInt(g.blendStart) && cal["blend_x_end"] == JInt(g.blendEnd)
      && cal["offset_x"] == JInt(g.offsetX) && cal["offset_y"] == JInt(g.offsetY)
  {
    var base := Calibrate.SavedBase(c);
    SavedBaseFields(c);
    var cal := Calibrate.SaveCalibration(c);
    forall k | k in RequiredKeys ensures k in cal && cal[k] == base[k] {
      assert k != "frame_index" && k != "inlier_ratio";
    }
    assert "homography" in RequiredKeys && "canvas_width" in RequiredKeys;
    assert "canvas_height" in RequiredKeys && "blend_x_start" in RequiredKeys;
    assert "blend_x_end" in RequiredKeys && "offset_x" in RequiredKeys;
    assert "offset_y" in RequiredKeys;
  }

  lemma SavedBaseFields(c: Calibrate.Calibration)
    ensures var base := Calibrate.SavedBase(c);
      var g := c.geometry;
      HasRequired(base)
      && base["homography"] == Calibrate.MatrixToJson(c.homography)
      && base["canvas_width"] == JInt(g.canvasWidth) && base["canvas_height"] == JInt(g.canvasHeight)
      && base["blend_x_start"] == JInt(g.blendStart) && base["blend_x_end"] == JInt(g.blendEnd)
      && base["offset_x"] == JInt(g.offsetX) && base["offset_y"] == JInt(g.offsetY)
  {
    SavedBaseSize(c);
    SavedBaseBlend(c);
  }

  lemma SavedBaseSize(c: Calibrate.Calibration)
    ensures var base := Calibrate.SavedBase(c);
      HasRequired(base)
      && base["homography"] == Calibrate.MatrixToJson(c.homography)
      && base["canvas_width"] == JInt(c.geometry.canvasWidth)
      && base["canvas_height"] == JInt(c.geometry.canvasHeight)
  {
  }

  lemma SavedBaseBlend(c: Calibrate.Calibration)
    ensures var base := Calibrate.SavedBase(c);
      "blend_x_start" in base && "blend_x_end" in base && "offset_x" in base && "offset_y" in base
      && base["blend_x_start"] == JInt(c.geometry.blendStart)
      && base["blend_x_end"] == JInt(c.geometry.blendEnd)
      && base["offset_x"] == JInt(c.geometry.offsetX) && base["offset_y"] == JInt(c.geometry.offsetY)
  {
  }

  /** H.tolist() of a finite 3×3 matrix loads back as the same matrix. */
  lemma MatrixJsonReadsBack(h: seq<seq<real>>)
    requires Is3x3(h)
    ensures HomographyMatrix(Calibrate.MatrixToJson(h)) == Ok(h)
  {
    var j := Calibrate.MatrixToJson(h);
    MatrixJsonFloats(h);
    var r := HomographyMatrix(j);
    assert r.Ok?;
    assert r.value == h by {
      forall i, k | 0 <= i < 3 && 0 <= k < 3 ensures r.value[i][k] == h[i][k] {
        assert ElementToFloat(j.items[i].items[k]) == Ok(Finite(r.value[i][k]));
      }
      assert forall i :: 0 <= i < 3 ==> r.value[i] == h[i];
    }
  }

  /** H.tolist() of a 3×3 matrix is a 3×3 list whose entries are the matrix's finite floats. */
  lemma MatrixJsonShape(h: seq<seq<real>>)
    requires Is3x3(h)
    ensures var j := Calibrate.MatrixToJson(h);
      Is3x3Shape(j)
      && forall i, k :: 0 <= i < 3 && 0 <= k < 3 ==> j.items[i].items[k] == JFloat(Finite(h[i][k]))
  {
    var j := Calibrate.MatrixToJson(h);
    assert forall i :: 0 <= i < 3 ==> j.items[i] == JList(seq(3, k requires 0 <= k < 3 => JFloat(Finite(h[i][k]))));
  }

  /** Every one of the nine entries reads as a finite float. */
  lemma MatrixJsonFloats(h: seq<seq<real>>)
    requires Is3x3(h)
    ensures var j := Calibrate.MatrixToJson(h);
      Is3x3Shape(j) && ToFloats(Entries(j)).Ok?
      && forall n :: 0 <= n < 9 ==> ToFloats(Entries(j)).value[n].Finite?
  {
    var j := Calibrate.MatrixToJson(h);
    MatrixJsonShape(h);
    var es := Entries(j);
    assert forall n :: 0 <= n < 9 ==> es[n].JFloat? && es[n].f.Finite? by {
      forall n | 0 <= n < 9 ensures es[n].JFloat? && es[n].f.Finite? {
        assert es[3 * (n / 3) + n % 3] == j.items[n / 3].items[n % 3];
      }
    }
    var fs := ToFloats(es);
    assert fs.Ok?;
    assert forall n :: 0 <= n < 9 ==> fs.value[n] == es[n].f;
  }

  /**
   * The calibration stitch_videos uses: the record loaded from an existing file, otherwise
   * calibrate() run on frame 0 with the default overlap fraction 0.35, whose errors
   * propagate.
   */
  function CalibrationData(loaded: Option<map<string, Json>>, leftPath: string,
                           rightPath: string, inputs: Calibrate.AttemptInputs<Calibrate.FrameShape>)
    : (r: Result<map<string, Json>>)
    requires Calibrate.WellFormed(inputs)
    ensures loaded.Some? ==> r == Ok(loaded.value)
    ensures loaded.None? ==>
      var c := Calibrate.CalibrateOnce(leftPath, rightPath, 0, 0.35, inputs);
      (c.Err? ==> r == Err(c.error)) && (c.Ok? ==> r == Ok(Calibrate.SaveCalibration(c.value)))
  {
    if loaded.Some? then Ok(loaded.value)
    else
      var c := Calibrate.CalibrateOnce(leftPath, rightPath, 0, 0.35, inputs);
      if c.Err? then Err(c.error) else Ok(Calibrate.SaveCalibration(c.value))
  }

  /**
   * A fresh calibration of non-empty frames with a 3×3 homography always passes the
   * validation.
   */
  lemma FreshCalibrationValidates(leftPath: string, rightPath: string,
                                  inputs: Calibrate.AttemptInputs<Calibrate.FrameShape>)
    requires Calibrate.WellFormed(inputs)
    requires inputs.fit.homography.Some? ==> Is3x3(inputs.fit.homography.value)
    requires var c := Calibrate.CalibrateOnce(leftPath, rightPath, 0, 0.35, inputs);
      c.Ok? ==> c.value.leftResolution.width > 0 && c.value.leftResolution.height > 0
    ensures var cal := CalibrationData(None, leftPath, rightPath, inputs);
      cal.Ok? ==> ValidateCalibration(cal.value).Ok?
  {
    var c := Calibrate.CalibrateOnce(leftPath, rightPath, 0, 0.35, inputs);
    if c.Ok? {
      var a := Calibrate.Attempt(leftPath, rightPath, 0, 0.35, inputs);
      assert c.value.homography == a.value.homography;
      SavedCalibrationValidates(c.value);
    }
  }

  // ----- stitch_videos -------------------------------------------------------------------

  /** Frames stitch_videos discards from the start of each stream before pairing. */
  function SkipLeft(frameOffset: int): nat { Max(0, -frameOffset) }

  function SkipRight(frameOffset: int): nat { Max(0, frameOffset) }

  /** total_frames: the pair count the containers' reported frame counts predict. */
  function ExpectedCount(reportedLeft: int, reportedRight: int, frameOffset: int): int
  {
    Min(reportedLeft - SkipLeft(frameOffset), reportedRight - SkipRight(frameOffset))
  }

  /**
   * The pairs the loop hands to stitch_frame: after the skip, frame i of each stream is
   * paired with frame i of the other until either stream ends.
   */
  function AlignedPairs<F>(left: seq<F>, right: seq<F>, frameOffset: int): (pairs: seq<(F, F)>)
  {
    PairsFrom(left, right, Min(SkipLeft(frameOffset), |left|), Min(SkipRight(frameOffset), |right|))
  }

  /** Frame posL + i of one stream paired with frame posR + i of the other, while both last. */
  function PairsFrom<F>(left: seq<F>, right: seq<F>, posL: nat, posR: nat): (pairs: seq<(F, F)>)
    requires posL <= |left| && posR <= |right|
  {
    var n := Min(|left| - posL, |right| - posR);
    seq(n, i requires 0 <= i < n => (left[posL + i], right[posR + i]))
  }

  /** The progress_callback calls after the first n writes. */
  function ProgressCalls(n: nat, total: int): (calls: seq<(int, int)>)
  {
    seq(n, i requires 0 <= i < n => (i + 1, total))
  }

  /**
   * Every stitched pair joins left frame j with right frame j + frameOffset: the offset
   * is exactly the lead of the right camera in frames.
   */
  lemma AlignedPairsKeepOffset<F>(left: seq<F>, right: seq<F>, frameOffset: int)
    ensures var pairs := AlignedPairs(left, right, frameOffset);
      forall i :: 0 <= i < |pairs| ==>
        var j := SkipLeft(frameOffset) + i;
        j < |left| && 0 <= j + frameOffset < |right|
        && pairs[i] == (left[j], right[j + frameOffset])
  {
    var pairs := AlignedPairs(left, right, frameOffset);
    if |pairs| > 0 {
      assert Min(SkipLeft(frameOffset), |left|) == SkipLeft(frameOffset);
      assert Min(SkipRight(frameOffset), |right|) == SkipRight(frameOffset);
      assert SkipRight(frameOffset) == SkipLeft(frameOffset) + frameOffset;
    }
  }

  /**
   * When the containers report their true frame counts, the loop writes exactly
   * max(0, total_frames) frames.
   */
  lemma ExpectedCountExact<F>(left: seq<F>, right: seq<F>, frameOffset: int)
    ensures |AlignedPairs(left, right, frameOffset)|
            == Max(0, ExpectedCount(|left|, |right|, frameOffset))
  {
  }

  /**
   * stitch_frame's slice assignment succeeds for a left frame of the given (height, width):
   * numpy can broadcast its clipped rectangle onto the canvas rectangle.
   */
  predicate LeftFits<F>(g: Calibrate.Geometry, size: F -> (nat, nat), f: F)
    requires g.canvasWidth >= 0 && g.canvasHeight >= 0
  {
    StitchFrame.Fits(StitchFrame.PlacementOf(g, size(f).0, size(f).1))
  }

  /**
   * The number of pairs stitched before the first whose left frame stitch_frame rejects
   * with ValueError; all of them when every left frame fits.
   */
  function FirstMisfit<F>(pairs: seq<(F, F)>, g: Calibrate.Geometry, size: F -> (nat, nat))
    : (k: nat)
    requires g.canvasWidth >= 0 && g.canvasHeight >= 0
    ensures k <= |pairs|
    ensures forall i :: 0 <= i < k ==> LeftFits(g, size, pairs[i].0)
    ensures k < |pairs| ==> !LeftFits(g, size, pairs[k].0)
  {
    if |pairs| == 0 || !LeftFits(g, size, pairs[0].0) then 0
    else 1 + FirstMisfit(pairs[1..], g, size)
  }

  /** The index FirstMisfit finds is the one before which every left frame fits and at which one does not. */
  lemma FirstMisfitIs<F>(pairs: seq<(F, F)>, g: Calibrate.Geometry, size: F -> (nat, nat), k: nat)
    requires g.canvasWidth >= 0 && g.canvasHeight >= 0
    requires k <= |pairs| && forall i :: 0 <= i < k ==> LeftFits(g, size, pairs[i].0)
    requires k < |pairs| ==> !LeftFits(g, size, pairs[k].0)
    ensures FirstMisfit(pairs, g, size) == k
  {
  }

  /**
   * Frames of one size that fit are all stitched; frames of one size that do not fit make
   * the first pair fail, so nothing is written.
   */
  lemma UniformFrames<F>(pairs: seq<(F, F)>, g: Calibrate.Geometry, size: F -> (nat, nat),
                         h: nat, w: nat)
    requires g.canvasWidth >= 0 && g.canvasHeight >= 0
    requires forall i :: 0 <= i < |pairs| ==> size(pairs[i].0) == (h, w)
    ensures StitchFrame.Fits(StitchFrame.PlacementOf(g, h, w)) ==> FirstMisfit(pairs, g, size) == |pairs|
    ensures !StitchFrame.Fits(StitchFrame.PlacementOf(g, h, w)) ==> FirstMisfit(pairs, g, size) == 0
  {
    var k := FirstMisfit(pairs, g, size);
    if k < |pairs| {
      assert size(pairs[k].0) == (h, w);
    }
    if 0 < |pairs| {
      assert size(pairs[0].0) == (h, w);
    }
  }

  /**
   * A left frame lying wholly to the right of a canvas offset past it cannot be placed: a
   * 100×100 frame with offset_x = 200 on a 1000×100 canvas gives an empty source slice for
   * a 900-column destination.
   */
  lemma OffsetPastFrameFails()
    ensures !StitchFrame.Fits(StitchFrame.PlacementOf(Calibrate.Geometry(1000, 100, 0, 0, 200, 0), 100, 100))
  {
    assert SliceIndex(-100, 1000) == 900 && SliceLen(0, -100, 1000) == 900;
    assert SliceIndex(200, 100) == 100 && SliceLen(200, 100, 100) == 0;
  }

  /**
   * stitch_videos from the calibration on. Validation errors come before any stream is
   * opened, then FileNotFoundError for a stream that cannot be opened, then RuntimeError
   * for a writer that cannot be created; none of these writes anything. Then the aligned
   * pairs are stitched and written in order until stitch_frame raises ValueError for a left
   * frame it cannot place; the frames written before it stay written. size gives each left
   * frame's (height, width); progress lists the callback's calls when one is given.
   */
  method StitchVideos<F>(cal: Result<map<string, Json>>, left: Option<seq<F>>,
                         right: Option<seq<F>>, size: F -> (nat, nat), reportedLeft: int,
                         reportedRight: int, frameOffset: int, writerOpens: bool,
                         hasCallback: bool)
    returns (r: Result<StitchParams>, written: seq<(F, F)>, progress: seq<(int, int)>)
    ensures cal.Err? ==> r == Err(cal.error)
    ensures cal.Ok? && ValidateCalibration(cal.value).Err? ==> r == ValidateCalibration(cal.value)
    ensures cal.Ok? && ValidateCalibration(cal.value).Ok? && (left.None? || right.None?) ==>
      r == Err(FileNotFoundError)
    ensures (cal.Ok? && ValidateCalibration(cal.value).Ok? && left.Some? && right.Some?
             && !writerOpens) ==> r == Err(RuntimeError)
    ensures !(cal.Ok? && ValidateCalibration(cal.value).Ok? && left.Some? && right.Some?
              && writerOpens)
            ==> written == [] && progress == []
    ensures cal.Ok? && ValidateCalibration(cal.value).Ok? && left.Some? && right.Some?
            && writerOpens ==>
      var params := ValidateCalibration(cal.value).value;
      var pairs := AlignedPairs(left.value, right.value, frameOffset);
      var k := FirstMisfit(pairs, params.geometry, size);
      r == (if k == |pairs| then Ok(params) else Err(ValueError))
      && written == pairs[..k]
      && progress == (if hasCallback
                      then ProgressCalls(k, ExpectedCount(reportedLeft, reportedRight, frameOffset))
                      else [])
  {
    written, progress := [], [];
    if cal.Err? {
      return Err(cal.error), written, progress;
    }
    var params := ValidateCalibration(cal.value);
    if params.Err? {
      return params, written, progress;
    }
    if left.None? || right.None? {
      return Err(FileNotFoundError), written, progress;
    }
    var outcome;
    outcome, written, progress := StitchOpened(left.value, right.value, params.value.geometry,
                                               size, reportedLeft, reportedRight, frameOffset,
                                               writerOpens, hasCallback);
    r := if outcome.Pass? then params else Err(outcome.error);
  }

  /**
   * stitch_videos once both streams are open: skip the offset, then fail when the writer
   * cannot be created, and otherwise stitch and write the aligned pairs until a left frame
   * cannot be placed.
   */
  method StitchOpened<F>(frames: seq<F>, others: seq<F>, g: Calibrate.Geometry,
                         size: F -> (nat, nat), reportedLeft: int, reportedRight: int,
                         frameOffset: int, writerOpens: bool, hasCallback: bool)
    returns (r: Outcome, written: seq<(F, F)>, progress: seq<(int, int)>)
    requires g.canvasWidth > 0 && g.canvasHeight > 0
    ensures !writerOpens ==> r == Fail(RuntimeError) && written == [] && progress == []
    ensures writerOpens ==>
      var pairs := AlignedPairs(frames, others, frameOffset);
      var k := FirstMisfit(pairs, g, size);
      r == (if k == |pairs| then Pass else Fail(ValueError))
      && written == pairs[..k]
      && progress == (if hasCallback
                      then ProgressCalls(k, ExpectedCount(reportedLeft, reportedRight, frameOffset))
                      else [])
  {
    written, progress := [], [];
    // Stream positions: the number of frames each capture has consumed.
    var posL, posR := 0, 0;
    if frameOffset > 0 {
      posR := SkipFrames(frameOffset, |others|);
    } else if frameOffset < 0 {
      posL := SkipFrames(-frameOffset, |frames|);
    }
    assert posL == Min(SkipLeft(frameOffset), |frames|) && posR == Min(SkipRight(frameOffset), |others|);
    var total := ExpectedCount(reportedLeft, reportedRight, frameOffset);
    if !writerOpens {
      return Fail(RuntimeError), written, progress;
    }
    r, written, progress := PairLoop(frames, others, posL, posR, g, size, total, hasCallback);
  }

  /** A loop of n reads on a capture holding len frames: the number of frames it consumes. */
  method SkipFrames(n: int, len: nat) returns (pos: nat)
    ensures pos == Min(Max(0, n), len)
  {
    pos := 0;
    var k := 0;
    while k < n
      invariant 0 <= k <= Max(0, n) && pos == Min(k, len)
    {
      if pos < len {
        pos := pos + 1;
      }
      k := k + 1;
    }
    assert k == Max(0, n);
  }

  /**
   * The read/stitch/write loop of stitch_videos from stream positions posL and posR: it
   * stops at the first failed read, and at the first pair whose left frame stitch_frame
   * cannot place, which raises ValueError; every other pair is stitched and written, with a
   * callback (frame_num, total_frames) after each write.
   */
  method PairLoop<F>(frames: seq<F>, others: seq<F>, posL: nat, posR: nat,
                     g: Calibrate.Geometry, size: F -> (nat, nat), total: int, hasCallback: bool)
    returns (r: Outcome, written: seq<(F, F)>, progress: seq<(int, int)>)
    requires posL <= |frames| && posR <= |others|
    requires g.canvasWidth > 0 && g.canvasHeight > 0
    ensures var pairs := PairsFrom(frames, others, posL, posR);
      var k := FirstMisfit(pairs, g, size);
      r == (if k == |pairs| then Pass else Fail(ValueError))
      && written == pairs[..k]
      && progress == (if hasCallback then ProgressCalls(k, total) else [])
  {
    ghost var pairs := PairsFrom(frames, others, posL, posR);
    written, progress := [], [];
    var l, rr := posL, posR;
    var frameNum := 0;
    while true
      invariant l == posL + frameNum && rr == posR + frameNum
      invariant l <= |frames| && rr <= |others| && frameNum <= |pairs|
      invariant written == pairs[..frameNum]
      invariant forall i :: 0 <= i < frameNum ==> LeftFits(g, size, pairs[i].0)
      invariant progress == (if hasCallback then ProgressCalls(frameNum, total) else [])
      decreases |frames| - l
    {
      var okL := l < |frames|;
      var okR := rr < |others|;
      if !okL || !okR {
        FirstMisfitIs(pairs, g, size, frameNum);
        return Pass, written, progress;
      }
      assert pairs[frameNum] == (frames[l], others[rr]);
      var p := StitchFrame.PlacementOf(g, size(frames[l]).0, size(frames[l]).1);
      if !StitchFrame.Fits(p) {
        FirstMisfitIs(pairs, g, size, frameNum);
        return Fail(ValueError), written, progress;
      }
      written := written + [(frames[l], others[rr])];
      assert pairs[..frameNum + 1] == pairs[..frameNum] + [pairs[frameNum]];
      l, rr := l + 1, rr + 1;
      frameNum := frameNum + 1;
      if hasCallback {
        assert ProgressCalls(frameNum, total)
               == ProgressCalls(frameNum - 1, total) + [(frameNum, total)];
        progress := progress + [(frameNum, total)];
      }
    }
  }

  /**
   * With accurate frame counts and a non-empty overlap, the last progress call reports
   * (total_frames, total_frames).
   */
  lemma ProgressEndsAtTotal<F>(left: seq<F>, right: seq<F>, frameOffset: int)
    requires ExpectedCount(|left|, |right|, frameOffset) > 0
    ensures var n := |AlignedPairs(left, right, frameOffset)|;
      var calls := ProgressCalls(n, ExpectedCount(|left|, |right|, frameOffset));
      |calls| > 0 && calls[|calls| - 1] == (ExpectedCount(|left|, |right|, frameOffset),
                                             ExpectedCount(|left|, |right|, frameOffset))
  {
    ExpectedCountExact(left, right, frameOffset);
  }
}
