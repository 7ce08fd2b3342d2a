/**
 * The session summary of the Interactive page: frame count, duration, final score and half of
 * a session log, and how many times the score changed over the session.
 */
module InteractivePage {
  import opened Wrappers
  import opened Text
  import opened SessionLog
  import Interactive

  /** The dictionary get_session_summary returns. */
  datatype SessionSummary = SessionSummary(totalFrames: nat, duration: real,
                                           homeScore: Option<string>, awayScore: Option<string>,
                                           scoreChanges: nat, half: Option<string>, logPath: string)

  /** Every row after the first has both score columns (the loop indexes them directly). */
  predicate HasScores(rows: seq<Row>)
  {
    forall i :: 1 <= i < |rows| ==> "home_score" in rows[i] && "away_score" in rows[i]
  }

  /**
   * The score the loop compares row i with: the first row's through get() with "0" defaults,
   * every later row's as indexed.
   */
  function ScoreAt(rows: seq<Row>, i: nat): (Option<string>, Option<string>)
    requires i < |rows| && (i > 0 ==> "home_score" in rows[i] && "away_score" in rows[i])
  {
    if i == 0 then (Get(rows[0], "home_score", "0"), Get(rows[0], "away_score", "0"))
    else (rows[i]["home_score"], rows[i]["away_score"])
  }

  /** The number of rows whose score differs from the row before, counted row by row. */
  function Changes(rows: seq<Row>): nat
    requires HasScores(rows)
  {
    if |rows| <= 1 then 0
    else
      var init := rows[..|rows| - 1];
      assert HasScores(init) by {
        assert forall i :: 0 <= i < |init| ==> init[i] == rows[i];
      }
      Changes(init) + (if ChangedAt(rows, |rows| - 1) then 1 else 0)
  }

  /** Row i's score differs from row i - 1's. */
  predicate ChangedAt(rows: seq<Row>, i: nat)
    requires HasScores(rows) && 1 <= i < |rows|
  {
    ScoreAt(rows, i) != ScoreAt(rows, i - 1)
  }

  /** The rows at which the score changed. */
  function ChangedRows(rows: seq<Row>): set<nat>
    requires HasScores(rows)
  {
    set i: nat | 1 <= i < |rows| && ChangedAt(rows, i)
  }

  /** Whether row i's score changed does not depend on the rows after it. */
  lemma ChangedAtPrefix(rows: seq<Row>, m: nat, i: nat)
    requires HasScores(rows) && 1 <= i < m <= |rows|
    ensures HasScores(rows[..m]) && ChangedAt(rows[..m], i) == ChangedAt(rows, i)
  {
    var init := rows[..m];
    assert init[i] == rows[i] && init[i - 1] == rows[i - 1];
    assert HasScores(init) by {
      assert forall j :: 0 <= j < |init| ==> init[j] == rows[j];
    }
    assert ScoreAt(init, i) == ScoreAt(rows, i);
    assert ScoreAt(init, i - 1) == ScoreAt(rows, i - 1);
  }

  /** Adding a row adds it to the changed rows exactly when its score changed. */
  lemma ChangedRowsSnoc(rows: seq<Row>)
    requires HasScores(rows) && |rows| > 1
    ensures HasScores(rows[..|rows| - 1])
    ensures var init := rows[..|rows| - 1];
      ChangedRows(rows)
      == ChangedRows(init) + (if ChangedAt(rows, |rows| - 1) then {|rows| - 1} else {})
      && |rows| - 1 !in ChangedRows(init)
  {
    var n := |rows|;
    var init := rows[..n - 1];
    assert forall i :: 0 <= i < |init| ==> init[i] == rows[i];
    var last: set<nat> := if ChangedAt(rows, n - 1) then {n - 1} else {};
    forall i: nat
      ensures i in ChangedRows(rows) <==> i in ChangedRows(init) + last
    {
      if 1 <= i < n - 1 {
        ChangedAtPrefix(rows, n - 1, i);
        assert i in ChangedRows(rows) <==> ChangedAt(rows, i);
        assert i in ChangedRows(init) <==> ChangedAt(init, i);
      } else if i == n - 1 {
        assert i in ChangedRows(rows) <==> ChangedAt(rows, i);
        assert i !in ChangedRows(init);
      } else {
        assert i !in ChangedRows(rows) && i !in ChangedRows(init);
      }
    }
    assert ChangedRows(rows) == ChangedRows(init) + last;
  }

  /**
   * The count is the number of rows i >= 1 whose (home_score, away_score) differs from row
   * i - 1's, so it is at most one less than the number of rows.
   */
  lemma {:induction false} ChangesCountsChangedRows(rows: seq<Row>)
    requires HasScores(rows)
    ensures Changes(rows) == |ChangedRows(rows)|
    ensures |rows| > 0 ==> Changes(rows) <= |rows| - 1
  {
    if |rows| > 1 {
      var n := |rows|;
      var init := rows[..n - 1];
      ChangedRowsSnoc(rows);
      ChangesCountsChangedRows(init);
      var last: set<nat> := if ChangedAt(rows, n - 1) then {n - 1} else {};
      assert Changes(rows) == Changes(init) + |last|;
      assert |ChangedRows(init) + last| == |ChangedRows(init)| + |last|;
    } else {
      assert ChangedRows(rows) == {};
    }
  }

  /**
   * get_session_summary over whether the log exists and the rows csv.DictReader yields: None
   * for a missing or empty log, a KeyError when a row after the first lacks a score column,
   * and otherwise the row count, the last row's timestamp, scores and half, and the number of
   * score changes.
   */
  method GetSessionSummary(fileExists: bool, rows: seq<Row>, logPath: string)
    returns (r: Result<Option<SessionSummary>>)
    ensures !fileExists || |rows| == 0 ==> r == Ok(None)
    ensures fileExists && |rows| > 0 && !HasScores(rows) ==> r == Err(KeyError)
    ensures fileExists && |rows| > 0 && HasScores(rows) ==>
      var last := rows[|rows| - 1];
      r == Ok(Some(SessionSummary(|rows|, LogDuration(last, |rows|), Get(last, "home_score", "0"),
                                  Get(last, "away_score", "0"), Changes(rows), Get(last, "half", "1"),
                                  logPath)))
  {
    if !fileExists || |rows| == 0 {
      return Ok(None);
    }
    var totalFrames := |rows|;
    var lastRow := rows[|rows| - 1];
    var scoreChanges := 0;
    var prevHome := Get(rows[0], "home_score", "0");
    var prevAway := Get(rows[0], "away_score", "0");
    var i := 1;
    while i < |rows|
      invariant 1 <= i <= |rows|
      invariant HasScores(rows[..i])
      invariant (prevHome, prevAway) == ScoreAt(rows[..i], i - 1)
      invariant scoreChanges == Changes(rows[..i])
    {
      var row := rows[i];
      if "home_score" !in row {
        return Err(KeyError);
      }
      var changed := row["home_score"] != prevHome;
      if !changed {
        if "away_score" !in row {
          return Err(KeyError);
        }
        changed := row["away_score"] != prevAway;
      }
      if changed {
        scoreChanges := scoreChanges + 1;
        prevHome := row["home_score"];
        if "away_score" !in row {
          return Err(KeyError);
        }
        prevAway := row["away_score"];
      }
      ghost var next := rows[..i + 1];
      assert next[..i] == rows[..i];
      assert forall j :: 0 <= j < i ==> next[j] == rows[..i][j];
      assert ScoreAt(next, i - 1) == ScoreAt(rows[..i], i - 1);
      i := i + 1;
    }
    assert rows[..i] == rows;
    var duration := LogDuration(lastRow, totalFrames);
    return Ok(Some(SessionSummary(totalFrames, duration, Get(lastRow, "home_score", "0"),
                                  Get(lastRow, "away_score", "0"), scoreChanges,
                                  Get(lastRow, "half", "1"), logPath)));
  }

  /** Rows logged with the same (home, away) score compare equal, and only those. */
  lemma LoggedScoresCompare(r1: Interactive.LogRow, t1: string, r2: Interactive.LogRow, t2: string)
    ensures (LoggedRow(r1, t1)["home_score"], LoggedRow(r1, t1)["away_score"])
         == (LoggedRow(r2, t2)["home_score"], LoggedRow(r2, t2)["away_score"])
        <==> r1.homeScore == r2.homeScore && r1.awayScore == r2.awayScore
  {
    LoggedScoreCells(r1, t1);
    LoggedScoreCells(r2, t2);
    IntToStringInjective(r1.homeScore, r2.homeScore);
    IntToStringInjective(r1.awayScore, r2.awayScore);
  }

  /** The log rows the viewer writes, each with the text of its timestamp. */
  function LoggedLog(entries: seq<(Interactive.LogRow, string)>): (rows: seq<Row>)
    ensures |rows| == |entries|
    ensures forall i :: 0 <= i < |entries| ==> rows[i] == LoggedRow(entries[i].0, entries[i].1)
  {
    seq(|entries|, (i: int) requires 0 <= i < |entries| => LoggedRow(entries[i].0, entries[i].1))
  }

  /** The score the summary loop reads at a logged row is the text of the score logged there. */
  lemma LoggedScoreAt(entries: seq<(Interactive.LogRow, string)>, i: nat)
    requires i < |entries|
    ensures HasScores(LoggedLog(entries))
    ensures ScoreAt(LoggedLog(entries), i)
         == (Some(IntToString(entries[i].0.homeScore)), Some(IntToString(entries[i].0.awayScore)))
  {
    var rows := LoggedLog(entries);
    LoggedScoreCells(entries[i].0, entries[i].1);
    assert rows[i] == LoggedRow(entries[i].0, entries[i].1);
  }

  /** The logged integer score of entry i differs from entry i - 1's. */
  predicate EntryChanged(entries: seq<(Interactive.LogRow, string)>, i: nat)
    requires 1 <= i < |entries|
  {
    (entries[i].0.homeScore, entries[i].0.awayScore) != (entries[i - 1].0.homeScore, entries[i - 1].0.awayScore)
  }

  /** A logged row's score text changed exactly when its integer score did. */
  lemma LoggedChangedAt(entries: seq<(Interactive.LogRow, string)>, i: nat)
    requires 1 <= i < |entries|
    ensures HasScores(LoggedLog(entries))
    ensures ChangedAt(LoggedLog(entries), i) <==> EntryChanged(entries, i)
  {
    var now, before := entries[i].0, entries[i - 1].0;
    LoggedScoreAt(entries, i);
    LoggedScoreAt(entries, i - 1);
    IntToStringInjective(now.homeScore, before.homeScore);
    IntToStringInjective(now.awayScore, before.awayScore);
  }

  /** Every row the viewer logged has both score columns. */
  lemma LoggedHasScores(entries: seq<(Interactive.LogRow, string)>)
    ensures HasScores(LoggedLog(entries))
  {
    var rows := LoggedLog(entries);
    forall i | 1 <= i < |rows|
      ensures "home_score" in rows[i] && "away_score" in rows[i]
    {
      assert rows[i] == LoggedRow(entries[i].0, entries[i].1);
    }
  }

  /** The rows of a logged session at which the score text changed are those whose logged score did. */
  lemma LoggedChangedRows(entries: seq<(Interactive.LogRow, string)>)
    ensures HasScores(LoggedLog(entries))
    ensures ChangedRows(LoggedLog(entries)) == set i: nat | 1 <= i < |entries| && EntryChanged(entries, i)
  {
    var rows := LoggedLog(entries);
    LoggedHasScores(entries);
    forall i: nat
      ensures i in ChangedRows(rows) <==> 1 <= i < |entries| && EntryChanged(entries, i)
    {
      if 1 <= i < |entries| {
        LoggedChangedAt(entries, i);
      }
    }
  }

  /**
   * Over a log the viewer wrote, the summary counts exactly the rows whose logged integer
   * score differs from the row before.
   */
  lemma LoggedChanges(entries: seq<(Interactive.LogRow, string)>)
    ensures HasScores(LoggedLog(entries))
    ensures Changes(LoggedLog(entries))
         == |set i: nat | 1 <= i < |entries| && EntryChanged(entries, i)|
  {
    LoggedChangedRows(entries);
    ChangesCountsChangedRows(LoggedLog(entries));
  }
}
