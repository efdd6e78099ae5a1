/** The second copy of the extraction, `get_logs_with_context` in
    backend/get_aws_logs.py. Its parse loop and occurrence loop are
    written out again, as in that file, and proved to compute the same
    lines as the specification of backend/log_retrieval.py. */
module AwsLogs {
  import opened Wrappers
  import opened SeqUtil
  import LogRetrieval

  type Record = LogRetrieval.Record

  /** Steps 2 to 4 as written in get_aws_logs.py; given the same rows and
      decoder, the result is that of the log_retrieval.py version. */
  method GetLogsWithContext(rows: seq<string>, decode: string -> Option<Record>,
                            errorMessage: string, limit: int, maxOccurrences: int)
    returns (logsWithContext: seq<string>)
    ensures logsWithContext == LogRetrieval.ContextLines(FilterMap(rows, decode), errorMessage, maxOccurrences)
  {
    var allLogs := ParseRows(rows, decode);
    var errorIndices := LogRetrieval.ErrorIndices(allLogs, errorMessage);
    if errorIndices == [] {
      return [];
    }
    LogRetrieval.ErrorIndicesSpec(allLogs, errorMessage);
    logsWithContext := EmitOccurrences(allLogs, LogRetrieval.KeepFirst(errorIndices, maxOccurrences));
  }

  /** The parse loop of this copy. */
  method ParseRows(rows: seq<string>, decode: string -> Option<Record>) returns (allLogs: seq<Record>)
    ensures allLogs == FilterMap(rows, decode)
  {
    allLogs := [];
    for j := 0 to |rows|
      invariant allLogs == FilterMap(rows[..j], decode)
    {
      FilterMapSnoc(rows, j, decode);
      var logData := decode(rows[j]);
      if logData.Some? {
        allLogs := allLogs + [logData.value];
      }
    }
    assert rows[..|rows|] == rows;
  }

  /** The occurrence loop of this copy. */
  method EmitOccurrences(allLogs: seq<Record>, kept: seq<nat>) returns (logsWithContext: seq<string>)
    requires LogRetrieval.InRange(allLogs, kept)
    ensures logsWithContext == LogRetrieval.Blocks(allLogs, kept)
  {
    logsWithContext := [];
    for index := 0 to |kept|
      invariant logsWithContext == LogRetrieval.Blocks(allLogs, kept[..index])
    {
      var errorIndex := kept[index];
      var startIndex := LogRetrieval.Max(0, errorIndex as int - 5);
      var endIndex := LogRetrieval.Min(|allLogs|, errorIndex + 6);
      var contextLogs := allLogs[startIndex..endIndex];
      var formattedLogs := LogRetrieval.FormatAll(contextLogs);
      logsWithContext := logsWithContext + [LogRetrieval.Header(index + 1)];
      logsWithContext := logsWithContext + formattedLogs;
      LogRetrieval.BlocksSnoc(allLogs, kept, index);
    }
    assert kept[..|kept|] == kept;
  }
}
