/**
 * The pre-render summary of the Render page: frame count, duration, final score and half of
 * the session log about to be rendered.
 */
module RenderPage {
  import opened Wrappers
  import opened Text
  import opened SessionLog
  import Interactive
  import InteractivePage

  /** The dictionary read_log_summary returns. */
  datatype LogSummary = LogSummary(totalFrames: nat, duration: real, homeScore: Option<string>,
                                   awayScore: Option<string>, half: Option<string>)

  /**
   * read_log_summary over whether the log exists and the rows csv.DictReader yields: None for
   * a missing or empty log, otherwise the row count and the last row's timestamp, scores and
   * half, each with its default when the column is absent.
   */
  function ReadLogSummary(fileExists: bool, rows: seq<Row>): (r: Option<LogSummary>)
    ensures r.None? <==> !fileExists || |rows| == 0
    ensures r.Some? ==> r.value.totalFrames == |rows|
    ensures r.Some? ==>
      var last := rows[|rows| - 1];
      r.value.duration == LogDuration(last, |rows|)
      && r.value.homeScore == (if "home_score" in last then last["home_score"] else Some("0"))
      && r.value.awayScore == (if "away_score" in last then last["away_score"] else Some("0"))
      && r.value.half == (if "half" in last then last["half"] else Some("1"))
  {
    if !fileExists || |rows| == 0 then None
    else
      var last := rows[|rows| - 1];
      Some(LogSummary(|rows|, LogDuration(last, |rows|), Get(last, "home_score", "0"),
                      Get(last, "away_score", "0"), Get(last, "half", "1")))
  }

  /**
   * For a log the viewer wrote, the summary shows as many frames as were logged and the
   * final score and half of the last logged frame, as decimal text.
   */
  lemma LoggedSummary(entries: seq<(Interactive.LogRow, string)>)
    requires |entries| > 0
    ensures var r := ReadLogSummary(true, InteractivePage.LoggedLog(entries));
      var last := entries[|entries| - 1].0;
      r.Some? && r.value.totalFrames == |entries|
      && r.value.homeScore.Some? && ParseInt(r.value.homeScore.value, 10) == Some(last.homeScore)
      && r.value.awayScore.Some? && ParseInt(r.value.awayScore.value, 10) == Some(last.awayScore)
      && r.value.half.Some? && ParseInt(r.value.half.value, 10) == Some(last.half)
  {
    var last := entries[|entries| - 1].0;
    var rows := InteractivePage.LoggedLog(entries);
    var row := LoggedRow(last, entries[|entries| - 1].1);
    assert rows[|rows| - 1] == row;
    LoggedScoreCells(last, entries[|entries| - 1].1);
    IntToStringParses(last.homeScore);
    IntToStringParses(last.awayScore);
    IntToStringParses(last.half);
  }
}
