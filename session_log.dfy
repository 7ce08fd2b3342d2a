/**
 * The session log as the Streamlit pages and the renderer read it back: csv.DictReader rows
 * (header name to cell text), dict.get with a default, and the final timestamp the pages
 * report as the session's duration.
 */
module SessionLog {
  import opened Wrappers
  import opened Text
  import Interactive

  /** A csv.DictReader row: None is the value of a column the line was too short to hold. */
  type Row = map<string, Option<string>>

  /** row.get(key, default) for a text default. */
  function Get(row: Row, key: string, default: string): (v: Option<string>)
    ensures key in row ==> v == row[key]
    ensures key !in row ==> v == Some(default)
  {
    if key in row then row[key] else Some(default)
  }

  /**
   * float(last_row.get("timestamp", 0)), falling back to rows / 30 on a ValueError (text that
   * is not a number) or a TypeError (a short line's None): an absent column reads as 0.0.
   */
  function LogDuration(last: Row, rowCount: nat): (d: real)
    ensures "timestamp" !in last ==> d == 0.0
    ensures "timestamp" in last && last["timestamp"].Some? && ParseFloat(last["timestamp"].value).Some?
            ==> d == ParseFloat(last["timestamp"].value).value
    ensures "timestamp" in last && (last["timestamp"].None? || ParseFloat(last["timestamp"].value).None?)
            ==> d == rowCount as real / 30.0
  {
    if "timestamp" !in last then 0.0
    else match last["timestamp"]
      case None => rowCount as real / 30.0
      case Some(t) =>
        match ParseFloat(t)
        case Some(v) => v
        case None => rowCount as real / 30.0
  }

  /** str(b).lower(), as log_frame records the clock and visibility flags. */
  function BoolText(b: bool): string
  {
    if b then "true" else "false"
  }

  /**
   * The row csv.DictReader gives back for a row log_frame recorded and csv.DictWriter wrote:
   * str() of every value (no cell holds a comma, quote or newline), the timestamp being the
   * text of its three-decimal formatting.
   */
  function LoggedRow(r: Interactive.LogRow, timestampText: string): Row
  {
    map["frame" := Some(IntToString(r.frame)), "timestamp" := Some(timestampText),
        "crop_x" := Some(IntToString(r.cropX)), "crop_y" := Some(IntToString(r.cropY)),
        "crop_w" := Some(IntToString(r.cropW)), "crop_h" := Some(IntToString(r.cropH)),
        "home_score" := Some(IntToString(r.homeScore)), "away_score" := Some(IntToString(r.awayScore)),
        "clock_running" := Some(BoolText(r.clockRunning)),
        "clock_seconds" := Some(IntToString(r.clockSeconds)), "half" := Some(IntToString(r.half)),
        "scoreboard_visible" := Some(BoolText(r.visible))]
  }

  /** A logged row holds each score column as the decimal text of the logged value. */
  lemma LoggedScoreCells(r: Interactive.LogRow, timestampText: string)
    ensures var row := LoggedRow(r, timestampText);
      row["home_score"] == Some(IntToString(r.homeScore))
      && row["away_score"] == Some(IntToString(r.awayScore))
      && row["half"] == Some(IntToString(r.half))
  {
  }

  /** A logged row holds the clock and visibility columns as the logged values' text. */
  lemma LoggedClockCells(r: Interactive.LogRow, timestampText: string)
    ensures var row := LoggedRow(r, timestampText);
      row["clock_seconds"] == Some(IntToString(r.clockSeconds))
      && row["clock_running"] == Some(BoolText(r.clockRunning))
      && row["scoreboard_visible"] == Some(BoolText(r.visible))
  {
  }

  /** A logged row holds each crop column as the decimal text of the logged value. */
  lemma LoggedCropCells(r: Interactive.LogRow, timestampText: string)
    ensures var row := LoggedRow(r, timestampText);
      "crop_x" in row && "crop_y" in row && "crop_w" in row && "crop_h" in row
      && row["crop_x"] == Some(IntToString(r.cropX)) && row["crop_y"] == Some(IntToString(r.cropY))
      && row["crop_w"] == Some(IntToString(r.cropW)) && row["crop_h"] == Some(IntToString(r.cropH))
  {
  }
}
