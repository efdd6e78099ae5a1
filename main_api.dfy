/** The two request handlers of backend/main.py that compute something
    themselves: `fetch_logs`, which converts its two time parameters before
    running the extraction, and `fetch_code`, which joins the log lines
    into one search text. */
module MainApi {
  import opened Wrappers
  import opened SeqUtil
  import opened PyStr
  import CivilTime
  import LogRetrieval

  /** `fetch_logs`: both times are converted first (start, then end), so a
      malformed one raises before any log query runs. `query` stands for
      the CloudWatch query on the group, stream and converted interval; it
      yields the raw `@message` rows. */
  method FetchLogs(logGroup: string, logStream: string, startTime: string, endTime: string,
                   errorMessage: string,
                   query: (string, string, int, int) -> seq<string>,
                   decode: string -> Option<LogRetrieval.Record>)
    returns (r: Result<seq<string>, CivilTime.TimeError>)
    ensures CivilTime.ConvertTime(startTime).Failure? ==> r == Failure(CivilTime.ConvertTime(startTime).error)
    ensures CivilTime.ConvertTime(startTime).Success? && CivilTime.ConvertTime(endTime).Failure? ==>
              r == Failure(CivilTime.ConvertTime(endTime).error)
    ensures CivilTime.ConvertTime(startTime).Success? && CivilTime.ConvertTime(endTime).Success? ==>
              var rows := query(logGroup, logStream, CivilTime.ConvertTime(startTime).value,
                                CivilTime.ConvertTime(endTime).value);
              r == Success(LogRetrieval.ContextLines(FilterMap(rows, decode), errorMessage,
                                                     LogRetrieval.DefaultMaxOccurrences))
  {
    var startTimestamp := CivilTime.ConvertTime(startTime);
    if startTimestamp.Failure? {
      return Failure(startTimestamp.error);
    }
    var endTimestamp := CivilTime.ConvertTime(endTime);
    if endTimestamp.Failure? {
      return Failure(endTimestamp.error);
    }
    var rows := query(logGroup, logStream, startTimestamp.value, endTimestamp.value);
    var logs := LogRetrieval.GetLogsWithContext(rows, decode, errorMessage, 5, LogRetrieval.DefaultMaxOccurrences);
    return Success(logs);
  }

  /** An appended seconds field makes the request fail before any query. */
  lemma SecondsInStartRejected(dt: CivilTime.DateTime, seconds: string)
    requires CivilTime.Valid(dt) && dt.year <= 9999
    ensures CivilTime.ConvertTime(CivilTime.Format(dt) + ":" + seconds) == Failure(CivilTime.UnconvertedData)
  {
    assert CivilTime.Format(dt) + ":" + seconds == CivilTime.Format(dt) + (":" + seconds);
    CivilTime.TrailingDataRejected(dt, ":" + seconds);
  }

  /** `"\n".join(logs)`, the search text of `fetch_code`. */
  function JoinLines(logs: seq<string>): string {
    Join("\n", logs)
  }

  /** No lines give the empty text. */
  lemma JoinNoLines()
    ensures JoinLines([]) == ""
  {
  }

  /** When no line holds a newline, the joined text splits back into
      exactly the given lines, so it has one line per element. */
  lemma JoinLinesSplit(logs: seq<string>)
    requires |logs| > 0
    requires forall i :: 0 <= i < |logs| ==> '\n' !in logs[i]
    ensures Split(JoinLines(logs), '\n') == logs
    ensures |Split(JoinLines(logs), '\n')| == |logs|
  {
    SplitJoin(logs, '\n');
  }

  /** The joined text is as long as the lines plus one newline between each
      neighbouring pair. */
  lemma JoinLinesLength(logs: seq<string>)
    requires |logs| > 0
    ensures |JoinLines(logs)| == TotalLength(logs) + |logs| - 1
  {
    JoinLength("\n", logs);
  }
}
