/** Error-context extraction of `get_logs_with_context`
    (backend/log_retrieval.py), from the rows a CloudWatch Insights query
    returned to the list of lines handed back to the caller.

    The rows are given by the `@message` value of each result row; turning
    one into a record (`json.loads` followed by the `time` and `log` key
    lookups, either of which may raise) is the oracle `decode`. */
module LogRetrieval {
  import opened Wrappers
  import opened SeqUtil
  import opened PyStr

  /** A parsed log record: the `time` and `log` fields of the JSON message. */
  datatype Record = Record(timestamp: string, log: string)

  /** Records before and after a match that are kept; hard-coded in the
      source, whatever its `limit` parameter says. */
  const Radius: nat := 5

  /** Default of the `max_occurrences` parameter. */
  const DefaultMaxOccurrences: int := 3

  function Max(a: int, b: int): int { if a >= b then a else b }
  function Min(a: int, b: int): int { if a <= b then a else b }

  // ---------------------------------------------------------------------
  // Step 3: the match indices

  /** `[i for i, log in enumerate(records) if msg in log["log"]]`. */
  function ErrorIndices(records: seq<Record>, msg: string): seq<nat> {
    MatchesFrom(records, msg, 0)
  }

  function MatchesFrom(records: seq<Record>, msg: string, from: nat): seq<nat>
    decreases |records| - from
  {
    if from >= |records| then []
    else (if Contains(records[from].log, msg) then [from] else []) + MatchesFrom(records, msg, from + 1)
  }

  /** The indices found from position `from` on are exactly the positions
      at or after `from` whose log contains `msg`, in ascending order. */
  lemma MatchesFromSpec(records: seq<Record>, msg: string, from: nat)
    ensures MatchListFrom(records, msg, from, MatchesFrom(records, msg, from))
  {
    MatchesFromSound(records, msg, from);
    MatchesFromComplete(records, msg, from);
    MatchesFromAscending(records, msg, from);
  }

  /** Every index found is a match at or after `from`, and the first one
      found (if any) is at least `from`. */
  lemma {:induction false} MatchesFromSound(records: seq<Record>, msg: string, from: nat)
    ensures forall k :: 0 <= k < |MatchesFrom(records, msg, from)| ==>
      from <= MatchesFrom(records, msg, from)[k] < |records|
      && Contains(records[MatchesFrom(records, msg, from)[k]].log, msg)
    decreases |records| - from
  {
    if from < |records| {
      MatchesFromSound(records, msg, from + 1);
    }
  }

  /** Every match at or after `from` is found. */
  lemma {:induction false} MatchesFromComplete(records: seq<Record>, msg: string, from: nat)
    ensures forall i :: from <= i < |records| && Contains(records[i].log, msg) ==> i in MatchesFrom(records, msg, from)
    decreases |records| - from
  {
    if from < |records| {
      MatchesFromComplete(records, msg, from + 1);
    }
  }

  /** The indices come in ascending order. */
  lemma {:induction false} MatchesFromAscending(records: seq<Record>, msg: string, from: nat)
    ensures Ascending(MatchesFrom(records, msg, from))
    decreases |records| - from
  {
    if from < |records| {
      var rest := MatchesFrom(records, msg, from + 1);
      MatchesFromAscending(records, msg, from + 1);
      MatchesFromSound(records, msg, from + 1);
      if Contains(records[from].log, msg) {
        var r := [from] + rest;
        assert MatchesFrom(records, msg, from) == r;
        forall k, l | 0 <= k < l < |r| ensures r[k] < r[l] {
          assert r[l] == rest[l - 1] && from + 1 <= rest[l - 1];
          if k > 0 { assert r[k] == rest[k - 1] < rest[l - 1]; }
        }
      }
    }
  }

  predicate Ascending(idx: seq<nat>) {
    forall k, l :: 0 <= k < l < |idx| ==> idx[k] < idx[l]
  }

  /** `idx` lists, in ascending order, exactly the positions at or after
      `from` whose log contains `msg`. */
  predicate MatchListFrom(records: seq<Record>, msg: string, from: nat, idx: seq<nat>) {
    && (forall k :: 0 <= k < |idx| ==> from <= idx[k] < |records| && Contains(records[idx[k]].log, msg))
    && (forall i :: from <= i < |records| && Contains(records[i].log, msg) ==> i in idx)
    && Ascending(idx)
  }

  /** Ascending, in range, and exactly the positions whose log holds the
      substring. */
  predicate IsMatchList(records: seq<Record>, msg: string, idx: seq<nat>) {
    && (forall k :: 0 <= k < |idx| ==> idx[k] < |records| && Contains(records[idx[k]].log, msg))
    && (forall i :: 0 <= i < |records| && Contains(records[i].log, msg) ==> i in idx)
    && Ascending(idx)
  }

  lemma ErrorIndicesSpec(records: seq<Record>, msg: string)
    ensures IsMatchList(records, msg, ErrorIndices(records, msg))
  {
    MatchesFromSpec(records, msg, 0);
  }

  /** An empty error message is a substring of every log, so every record
      is a match. */
  lemma EmptyMessageMatchesAll(records: seq<Record>)
    ensures ErrorIndices(records, "") == seq(|records|, k requires 0 <= k < |records| => k)
  {
    EmptyMatchesFrom(records, 0);
    var all := seq(|records|, k requires 0 <= k < |records| => k);
    assert ErrorIndices(records, "") == all;
  }

  lemma {:induction false} EmptyMatchesFrom(records: seq<Record>, from: nat)
    requires from <= |records|
    ensures |MatchesFrom(records, "", from)| == |records| - from
    ensures forall k :: 0 <= k < |records| - from ==> MatchesFrom(records, "", from)[k] == from + k
    decreases |records| - from
  {
    if from < |records| {
      EmptyMatchesFrom(records, from + 1);
      EmptyContained(records[from].log);
      var rest := MatchesFrom(records, "", from + 1);
      assert MatchesFrom(records, "", from) == [from] + rest;
    }
  }

  // ---------------------------------------------------------------------
  // Step 4: windows and lines

  /** Python's `xs[:m]`, negative `m` counting from the end. */
  function KeepFirst(xs: seq<nat>, m: int): (r: seq<nat>)
    ensures m >= 0 ==> |r| == Min(m, |xs|)
    ensures m < 0 ==> |r| == Max(0, |xs| + m)
    ensures r == xs[..|r|]
  {
    if m >= 0 then xs[..Min(m, |xs|)] else xs[..Max(0, |xs| + m)]
  }

  /** First record of the window around record `i`: `max(0, i - 5)`. */
  function WindowStart(i: nat): nat { Max(0, i as int - Radius) }

  /** One past the last record of the window: `min(n, i + 6)`. */
  function WindowEnd(i: nat, n: nat): nat { Min(n, i + Radius + 1) }

  /** The clipped window around a match holds exactly the records within
      five positions of it, the match among them, and never reaches past
      either end of the records. */
  lemma WindowSpec(i: nat, n: nat)
    requires i < n
    ensures WindowStart(i) <= i < WindowEnd(i, n) <= n
    ensures forall j :: InWindow(i, n, j) <==> 0 <= j < n && i - 5 <= j <= i + 5
    ensures 1 <= WindowEnd(i, n) - WindowStart(i) <= 11
  {
  }

  predicate InWindow(i: nat, n: nat, j: int) {
    WindowStart(i) <= j < WindowEnd(i, n)
  }

  /** `f"{log['timestamp']} - {log['log']}"`. */
  function FormatRecord(r: Record): string {
    r.timestamp + " - " + r.log
  }

  function FormatAll(rs: seq<Record>): (r: seq<string>)
    ensures |r| == |rs|
  {
    seq(|rs|, k requires 0 <= k < |rs| => FormatRecord(rs[k]))
  }

  /** The header placed before the `k`-th window (1-based). */
  function Header(k: nat): string {
    "\n\U{1F6D1} **Context around Error Occurrence " + NatToString(k) + "**:"
  }

  predicate InRange(records: seq<Record>, kept: seq<nat>) {
    forall k :: 0 <= k < |kept| ==> kept[k] < |records|
  }

  /** The header and formatted window for the match at `i`, numbered `k`. */
  function Block(records: seq<Record>, i: nat, k: nat): seq<string>
    requires i < |records|
  {
    [Header(k)] + FormatAll(records[WindowStart(i)..WindowEnd(i, |records|)])
  }

  /** The lines produced by the occurrence loop for the matches `kept`. */
  function Blocks(records: seq<Record>, kept: seq<nat>): seq<string>
    requires InRange(records, kept)
    decreases |kept|
  {
    if kept == [] then []
    else Blocks(records, kept[..|kept| - 1]) + Block(records, kept[|kept| - 1], |kept|)
  }

  /** Result of steps 3 and 4 for the parsed records. */
  function ContextLines(records: seq<Record>, msg: string, maxOccurrences: int): seq<string> {
    var idx := ErrorIndices(records, msg);
    ErrorIndicesSpec(records, msg);
    if idx == [] then [] else Blocks(records, KeepFirst(idx, maxOccurrences))
  }

  /** The number of lines a window contributes, header included. */
  function BlockSize(records: seq<Record>, i: nat): nat
    requires i < |records|
  {
    1 + WindowEnd(i, |records|) - WindowStart(i)
  }

  function TotalSize(records: seq<Record>, kept: seq<nat>): nat
    requires InRange(records, kept)
    decreases |kept|
  {
    if kept == [] then 0 else TotalSize(records, kept[..|kept| - 1]) + BlockSize(records, kept[|kept| - 1])
  }

  /** The output holds, for each kept match, one header plus the window. */
  lemma {:induction false} BlocksLength(records: seq<Record>, kept: seq<nat>)
    requires InRange(records, kept)
    ensures |Blocks(records, kept)| == TotalSize(records, kept)
    decreases |kept|
  {
    if kept != [] {
      BlocksLength(records, kept[..|kept| - 1]);
    }
  }

  /** The lines for a prefix of the kept matches are a prefix of the lines. */
  lemma {:induction false} BlocksPrefix(records: seq<Record>, kept: seq<nat>, j: nat)
    requires InRange(records, kept)
    requires j <= |kept|
    ensures InRange(records, kept[..j])
    ensures |Blocks(records, kept[..j])| <= |Blocks(records, kept)|
    ensures Blocks(records, kept[..j]) == Blocks(records, kept)[..|Blocks(records, kept[..j])|]
    decreases |kept| - j
  {
    if j < |kept| {
      var init := kept[..|kept| - 1];
      assert init[..j] == kept[..j];
      BlocksPrefix(records, init, j);
    } else {
      assert kept[..j] == kept;
    }
  }

  /** Header number `k + 1` sits where the lines of the first `k` windows
      end, and the `k`-th window's formatted records follow it directly. */
  lemma BlockAt(records: seq<Record>, kept: seq<nat>, k: nat)
    requires InRange(records, kept)
    requires k < |kept|
    ensures TotalSize(records, kept[..k]) + BlockSize(records, kept[k]) <= |Blocks(records, kept)|
    ensures Blocks(records, kept)[TotalSize(records, kept[..k])] == Header(k + 1)
    ensures Blocks(records, kept)[TotalSize(records, kept[..k]) + 1..TotalSize(records, kept[..k]) + BlockSize(records, kept[k])]
            == FormatAll(records[WindowStart(kept[k])..WindowEnd(kept[k], |records|)])
  {
    var i := kept[k];
    BlocksPrefix(records, kept, k + 1);
    BlocksSnoc(records, kept, k);
    BlocksLength(records, kept[..k]);
    var window := FormatAll(records[WindowStart(i)..WindowEnd(i, |records|)]);
    PrefixPart(Blocks(records, kept), Blocks(records, kept[..k]), Header(k + 1), window,
               TotalSize(records, kept[..k]), BlockSize(records, i));
  }

  /** A prefix of `lines` made of `before`, one line `x` and `rest` puts
      `x` at `off == |before|` and `rest` right after it. */
  lemma PrefixPart<T>(lines: seq<T>, before: seq<T>, x: T, rest: seq<T>, off: nat, size: nat)
    requires off == |before| && size == 1 + |rest|
    requires off + size <= |lines|
    requires before + [x] + rest == lines[..off + size]
    ensures lines[off] == x
    ensures lines[off + 1..off + size] == rest
  {
    var b := before + [x] + rest;
    assert lines[off] == b[off];
    assert b[off + 1..] == rest;
  }

  /** One more kept match appends its header and its formatted window. */
  lemma BlocksSnoc(records: seq<Record>, kept: seq<nat>, index: nat)
    requires InRange(records, kept)
    requires index < |kept|
    ensures InRange(records, kept[..index]) && InRange(records, kept[..index + 1])
    ensures Blocks(records, kept[..index + 1]) ==
            Blocks(records, kept[..index]) + [Header(index + 1)]
            + FormatAll(records[WindowStart(kept[index])..WindowEnd(kept[index], |records|)])
  {
    assert kept[..index + 1][..index] == kept[..index];
  }

  /** When no record matches, the result is empty. */
  lemma NoMatchNoLines(records: seq<Record>, msg: string, maxOccurrences: int)
    requires forall i :: 0 <= i < |records| ==> !Contains(records[i].log, msg)
    ensures ContextLines(records, msg, maxOccurrences) == []
  {
    NoMatchFrom(records, msg, 0);
  }

  lemma {:induction false} NoMatchFrom(records: seq<Record>, msg: string, from: nat)
    requires forall i :: from <= i < |records| ==> !Contains(records[i].log, msg)
    ensures MatchesFrom(records, msg, from) == []
    decreases |records| - from
  {
    if from < |records| {
      NoMatchFrom(records, msg, from + 1);
    }
  }

  /** With a non-negative cap, exactly `min(cap, matches)` windows are
      emitted, for the first matches in order; further matches are
      dropped. */
  lemma KeptMatches(records: seq<Record>, msg: string, maxOccurrences: int)
    requires maxOccurrences >= 0
    ensures var idx := ErrorIndices(records, msg);
      var kept := KeepFirst(idx, maxOccurrences);
      && |kept| == Min(maxOccurrences, |idx|)
      && kept == idx[..|kept|]
      && InRange(records, kept)
      && (idx != [] ==> ContextLines(records, msg, maxOccurrences) == Blocks(records, kept))
  {
    ErrorIndicesSpec(records, msg);
  }

  /** Overlapping windows are not merged: with two neighbouring matches,
      both records appear in both windows. */
  lemma OverlappingWindowsRepeat()
    ensures var records := [Record("t0", "ERROR a"), Record("t1", "ERROR b")];
      ContextLines(records, "ERROR", DefaultMaxOccurrences) ==
        [Header(1), "t0 - ERROR a", "t1 - ERROR b", Header(2), "t0 - ERROR a", "t1 - ERROR b"]
  {
    var records := [Record("t0", "ERROR a"), Record("t1", "ERROR b")];
    assert StartsWith(records[0].log, "ERROR");
    assert StartsWith(records[1].log, "ERROR");
    assert ErrorIndices(records, "ERROR") == [0, 1];
    var kept := KeepFirst([0, 1], DefaultMaxOccurrences);
    assert kept == [0, 1];
    assert kept[..1] == [0];
    assert WindowStart(0) == 0 && WindowEnd(0, 2) == 2;
    assert WindowStart(1) == 0 && WindowEnd(1, 2) == 2;
    assert records[0..2] == records;
    assert FormatRecord(records[0]) == "t0 - ERROR a";
    assert FormatRecord(records[1]) == "t1 - ERROR b";
    assert FormatAll(records) == ["t0 - ERROR a", "t1 - ERROR b"];
    assert Blocks(records, [0]) == Blocks(records, []) + Block(records, 0, 1);
    assert Blocks(records, [0, 1]) == Blocks(records, [0]) + Block(records, 1, 2);
  }

  // ---------------------------------------------------------------------
  // The whole of steps 2 to 4

  /** Steps 2 to 4 of `get_logs_with_context`: parse the rows, skipping
      those the decoder rejects, find the matches, and emit a header and
      the clipped window for each of the first `maxOccurrences` matches.
      `limit` is accepted and ignored, as in the source. */
  method GetLogsWithContext(rows: seq<string>, decode: string -> Option<Record>,
                            errorMessage: string, limit: int, maxOccurrences: int)
    returns (logsWithContext: seq<string>)
    ensures logsWithContext == ContextLines(FilterMap(rows, decode), errorMessage, maxOccurrences)
  {
    var allLogs := ParseRows(rows, decode);
    var errorIndices := ErrorIndices(allLogs, errorMessage);
    if errorIndices == [] {
      return [];
    }
    ErrorIndicesSpec(allLogs, errorMessage);
    logsWithContext := EmitOccurrences(allLogs, KeepFirst(errorIndices, maxOccurrences));
  }

  /** Step 2: the loop over the query rows; a row the decoder rejects is
      skipped. */
  method ParseRows(rows: seq<string>, decode: string -> Option<Record>) returns (allLogs: seq<Record>)
    ensures allLogs == FilterMap(rows, decode)
  {
    allLogs := [];
    var j := 0;
    while j < |rows|
      invariant 0 <= j <= |rows|
      invariant allLogs == FilterMap(rows[..j], decode)
    {
      FilterMapSnoc(rows, j, decode);
      var logData := decode(rows[j]);
      if logData.Some? {
        allLogs := allLogs + [logData.value];
      }
      j := j + 1;
    }
    assert rows[..|rows|] == rows;
  }

  /** Step 4: the loop over the kept matches, appending a numbered header
      and the formatted window of each. */
  method EmitOccurrences(allLogs: seq<Record>, kept: seq<nat>) returns (logsWithContext: seq<string>)
    requires InRange(allLogs, kept)
    ensures logsWithContext == Blocks(allLogs, kept)
  {
    logsWithContext := [];
    var index := 0;
    while index < |kept|
      invariant 0 <= index <= |kept|
      invariant logsWithContext == Blocks(allLogs, kept[..index])
    {
      var errorIndex := kept[index];
      var startIndex := Max(0, errorIndex as int - 5);
      var endIndex := Min(|allLogs|, errorIndex + 6);
      var contextLogs := allLogs[startIndex..endIndex];
      var formattedLogs := FormatAll(contextLogs);
      logsWithContext := logsWithContext + [Header(index + 1)];
      logsWithContext := logsWithContext + formattedLogs;
      BlocksSnoc(allLogs, kept, index);
      index := index + 1;
    }
    assert kept[..|kept|] == kept;
  }
}
