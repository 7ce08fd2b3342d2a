/**
 * The arithmetic of the Calibrate + Stitch page: the duration shown for a selected video,
 * the stitch time estimate, and the frame offset handed to stitch_videos, taken from the
 * timecode offset when the two files carry timecodes and from the audio offset otherwise.
 */
module StitchPage {
  import opened Wrappers
  import opened Arith
  import Duration

  /** frame_count / fps, or 0 for a video reporting no frame rate. */
  function DisplayDuration(frameCount: int, fps: real): (d: real)
    ensures fps > 0.0 ==> d * fps == frameCount as real
    ensures fps <= 0.0 ==> d == 0.0
  {
    if fps > 0.0 then frameCount as real / fps else 0.0
  }

  /**
   * The metadata card shows the whole seconds of the video: a video with frames shows
   * floor(frames / fps) seconds split into hours, minutes and seconds, those seconds' worth
   * of frames never exceeding the frame count.
   */
  lemma DisplayedSeconds(frameCount: nat, fps: real)
    requires fps > 0.0
    ensures var d := DisplayDuration(frameCount, fps);
      d >= 0.0
      && Duration.Hours(d) * 3600 + Duration.Minutes(d) * 60 + Duration.Seconds(d) == d.Floor
      && d.Floor as real * fps <= frameCount as real
  {
    var d := DisplayDuration(frameCount, fps);
    assert d >= 0.0;
    Duration.FieldsDecompose(d);
    MulMono(d.Floor as real, d, fps);
  }

  /** duration * 0.2 / 60: a stitch is estimated at a fifth of the video's running time. */
  function EstimatedMinutes(duration: real): (minutes: real)
    ensures minutes * 300.0 == duration
  {
    duration * 0.2 / 60.0
  }

  /** The sync method detect_sync_method reports: a timecode offset, or audio sync. */
  datatype Sync = TimecodeSync(offset: real) | AudioSync

  /** detect_sync_method: timecode sync whenever a timecode offset was detected. */
  function DetectSync(timecodeOffset: Option<real>): (s: Sync)
    ensures s.TimecodeSync? <==> timecodeOffset.Some?
    ensures s.TimecodeSync? ==> s.offset == timecodeOffset.value
  {
    match timecodeOffset
    case Some(t) => TimecodeSync(t)
    case None => AudioSync
  }

  /** The offset in seconds the frame offset is computed from. */
  function OffsetSeconds(sync: Sync, audioOffset: real): real
  {
    match sync
    case TimecodeSync(t) => t
    case AudioSync => audioOffset
  }

  /**
   * The frame offset: round(offset * fps) with Python's round-half-to-even, the offset being
   * the timecode offset under timecode sync and the audio offset otherwise. It is the
   * nearest whole number of frames.
   */
  function FrameOffset(sync: Sync, audioOffset: real, fps: real): (n: int)
    ensures (n as real) - 0.5 <= OffsetSeconds(sync, audioOffset) * fps <= (n as real) + 0.5
  {
    RoundedFrames(OffsetSeconds(sync, audioOffset), fps)
  }

  /** round(seconds * fps). */
  function RoundedFrames(seconds: real, fps: real): int
  {
    RoundHalfEven(seconds * fps)
  }

  /** An offset that is a whole number of frames is taken exactly. */
  lemma FrameOffsetWhole(sync: Sync, audioOffset: real, fps: real, k: int)
    requires OffsetSeconds(sync, audioOffset) * fps == k as real
    ensures FrameOffset(sync, audioOffset, fps) == k
  {
  }

  /**
   * Under timecode sync the audio offset is irrelevant, and the timecode offset gives the
   * frame offset audio sync would give for the same number of seconds.
   */
  lemma TimecodePreferred(timecode: real, audioOffset: real, otherAudioOffset: real, fps: real)
    ensures FrameOffset(TimecodeSync(timecode), audioOffset, fps)
         == FrameOffset(TimecodeSync(timecode), otherAudioOffset, fps)
    ensures FrameOffset(TimecodeSync(timecode), audioOffset, fps) == FrameOffset(AudioSync, timecode, fps)
  {
  }

  /** A later right camera (a non-negative offset) never gives a negative frame offset. */
  lemma FrameOffsetSign(sync: Sync, audioOffset: real, fps: real)
    requires fps >= 0.0 && OffsetSeconds(sync, audioOffset) >= 0.0
    ensures FrameOffset(sync, audioOffset, fps) >= 0
  {
    var o := OffsetSeconds(sync, audioOffset);
    if fps > 0.0 {
      MulMono(0.0, o, fps);
    }
  }
}
