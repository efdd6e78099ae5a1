/** The state of the `DebuggingUI` component in
    frontend/components/DebuggingUI.tsx: the two name lookups, the group
    and stream handlers, the three button-enable predicates and the state
    changes of `fetchLogs`, `fetchCode` and `fetchDebugInfo`. Each handler
    takes the outcome of its request as an argument in place of the
    `fetch` call, and returns the request it would send. */
module Frontend {
  import opened Wrappers
  import CivilTime

  // ---------------------------------------------------------------------
  // Name lookups

  /** `logStreamOptions`: the streams the selector offers under each group. */
  const LogStreamOptions: map<string, seq<string>> :=
    map["production" := ["Windstream", "Consolidated", "JSI", "123net"],
        "non-production" := ["QA", "UAT"]]

  const LogGroupMap: map<string, string> :=
    map["production" := "/aws/containerinsights/prod/application",
        "non-production" := "/aws/containerinsights/nonprod/application"]

  const LogStreamMap: map<string, string> :=
    map["QA" := "qa_aro-service",
        "UAT" := "uat_aro-service",
        "Windstream" := "windstream-aro-service",
        "Consolidated" := "consolidated-aro-service",
        "JSI" := "jsi-aro-service",
        "123net" := "123net-aro-service"]

  /** `resolveLogGroup`: the CloudWatch group of a selector value, or "". */
  function ResolveLogGroup(group: string): string {
    if group in LogGroupMap && LogGroupMap[group] != "" then LogGroupMap[group] else ""
  }

  /** `resolveLogStream`: the CloudWatch stream of a selector value; any
      other value is passed through unchanged. */
  function ResolveLogStream(stream: string): string {
    if stream in LogStreamMap && LogStreamMap[stream] != "" then LogStreamMap[stream] else stream
  }

  /** Exactly the two known groups resolve to a name, and to which. */
  lemma ResolveLogGroupSpec(group: string)
    ensures ResolveLogGroup(group) != "" <==> group == "production" || group == "non-production"
    ensures group == "production" ==> ResolveLogGroup(group) == "/aws/containerinsights/prod/application"
    ensures group == "non-production" ==> ResolveLogGroup(group) == "/aws/containerinsights/nonprod/application"
  {
  }

  /** A stream value is changed exactly when it is one of the six known
      names. */
  lemma ResolveLogStreamSpec(stream: string)
    ensures ResolveLogStream(stream) != stream <==> stream in LogStreamMap
    ensures stream in LogStreamMap ==> ResolveLogStream(stream) == LogStreamMap[stream]
  {
  }

  /** Resolving twice is resolving once: no resolved name is itself a key. */
  lemma ResolveLogStreamIdempotent(stream: string)
    ensures ResolveLogStream(ResolveLogStream(stream)) == ResolveLogStream(stream)
  {
    if stream in LogStreamMap {
      assert LogStreamMap[stream] !in LogStreamMap;
    }
  }

  /** Every stream the selector offers under either group has its own
      entry in the stream map. */
  lemma OfferedStreamsResolve(group: string, i: int)
    requires group in LogStreamOptions && 0 <= i < |LogStreamOptions[group]|
    ensures LogStreamOptions[group][i] in LogStreamMap
    ensures ResolveLogStream(LogStreamOptions[group][i]) != LogStreamOptions[group][i]
  {
  }

  // ---------------------------------------------------------------------
  // JavaScript `String.prototype.trim`

  /** WhiteSpace and LineTerminator code points of ECMAScript. */
  predicate JsWhitespace(c: char) {
    || c == '\t' || c == '\n' || c == '\U{000B}' || c == '\U{000C}' || c == '\r' || c == ' '
    || c == '\U{00A0}' || c == '\U{1680}' || ('\U{2000}' <= c <= '\U{200A}')
    || c == '\U{2028}' || c == '\U{2029}' || c == '\U{202F}' || c == '\U{205F}'
    || c == '\U{3000}' || c == '\U{FEFF}'
  }

  function TrimStart(s: string): string
    decreases |s|
  {
    if s != [] && JsWhitespace(s[0]) then TrimStart(s[1..]) else s
  }

  function TrimEnd(s: string): string
    decreases |s|
  {
    if s != [] && JsWhitespace(s[|s| - 1]) then TrimEnd(s[..|s| - 1]) else s
  }

  function Trim(s: string): string {
    TrimStart(TrimEnd(s))
  }

  /** Trimming leaves nothing exactly when every character is white space. */
  lemma TrimEmptyIffBlank(s: string)
    ensures Trim(s) == "" <==> forall i :: 0 <= i < |s| ==> JsWhitespace(s[i])
  {
    TrimEndSpec(s);
    TrimStartSpec(TrimEnd(s));
  }

  lemma {:induction false} TrimStartSpec(s: string)
    ensures TrimStart(s) == "" <==> forall i :: 0 <= i < |s| ==> JsWhitespace(s[i])
    decreases |s|
  {
    if s != [] && JsWhitespace(s[0]) {
      TrimStartSpec(s[1..]);
      assert forall i :: 1 <= i < |s| ==> s[i] == s[1..][i - 1];
    }
  }

  lemma {:induction false} TrimEndSpec(s: string)
    ensures TrimEnd(s) == [] <==> forall i :: 0 <= i < |s| ==> JsWhitespace(s[i])
    ensures TrimEnd(s) != [] ==> !JsWhitespace(TrimEnd(s)[|TrimEnd(s)| - 1])
    decreases |s|
  {
    if s != [] && JsWhitespace(s[|s| - 1]) {
      TrimEndSpec(s[..|s| - 1]);
    }
  }

  // ---------------------------------------------------------------------
  // Component state

  /** One code snippet as the page declares it, a pair of strings. The
      `/code` endpoint in fact answers with plain strings; the page's
      declared type is kept here. */
  type Snippet = (string, string)

  /** Every state variable of the component. */
  datatype UiState = UiState(
    startTime: string,
    endTime: string,
    hydrated: bool,
    logs: seq<string>,
    codeSnippets: seq<Snippet>,
    debugInfo: string,
    logGroup: string,
    logStream: string,
    errorMessageInput: string,
    logErrorMessage: string,
    errorMessage: string,
    hasQueried: bool,
    analysis: string,
    activeTab: string)

  const Initial: UiState :=
    UiState("", "", false, [], [], "", "", "", "", "", "", false, "", "logs")

  /** The query parameters of `/logs`, before URI encoding (the server
      decodes them again). */
  datatype LogsRequest = LogsRequest(logGroup: string, logStream: string,
                                     startTime: string, endTime: string, errorMessage: string)

  /** What `fetchLogs` gets back: a failure of `fetch` or of `response.json()`,
      or a body with its `error`, `logs`, `codeSnippets` and `analysis`
      fields (None where the field is absent, or not an array, or not a
      string). */
  datatype LogsResponse =
    | LogsUnreachable
    | LogsBody(error: Option<string>, logs: Option<seq<string>>,
               codeSnippets: Option<seq<Snippet>>, analysis: Option<string>)

  datatype CodeResponse =
    | CodeUnreachable
    | CodeBody(error: Option<string>, code: Option<seq<Snippet>>)

  datatype DebugResponse =
    | DebugUnreachable
    | DebugBody(error: Option<string>, debugInfo: string)

  /** `typeof field === "string" && field.trim() !== ""`. */
  predicate HasText(field: Option<string>) {
    field.Some? && Trim(field.value) != ""
  }

  /** JavaScript truthiness of an optional string field. */
  predicate Truthy(field: Option<string>) {
    field.Some? && field.value != ""
  }

  predicate IsTab(tab: string) {
    tab == "logs" || tab == "code" || tab == "analysis"
  }

  /** Facts every reachable state keeps: an error message is only shown
      with no logs, logs or an error message only appear after a query,
      and the active tab is one of the three tabs. */
  predicate Consistent(s: UiState) {
    && (s.logErrorMessage != "" ==> s.logs == [])
    && (s.logs != [] || s.logErrorMessage != "" ==> s.hasQueried)
    && IsTab(s.activeTab)
  }

  // ---------------------------------------------------------------------
  // Buttons

  predicate GetLogsEnabled(s: UiState) {
    s.logGroup != "" && s.logStream != "" && s.startTime != "" && s.endTime != "" && s.errorMessageInput != ""
  }

  predicate GetCodeEnabled(s: UiState) {
    |s.logs| > 0
  }

  predicate DebugEnabled(s: UiState) {
    |s.logs| > 0 && |s.codeSnippets| > 0
  }

  /** Debug can only be pressed when Get Code can. */
  lemma DebugNeedsGetCode(s: UiState)
    ensures DebugEnabled(s) ==> GetCodeEnabled(s)
    ensures DebugEnabled(s) <==> GetCodeEnabled(s) && |s.codeSnippets| > 0
  {
  }

  // ---------------------------------------------------------------------
  // Transitions, as functions of the state

  /** The `useEffect` after hydration: both times become the ISO time of
      now cut to minutes (`toISOString().slice(0, 16)`). */
  function AfterHydration(s: UiState, nowIso: string): UiState {
    var now := if |nowIso| <= 16 then nowIso else nowIso[..16];
    s.(hydrated := true, startTime := now, endTime := now)
  }

  /** The time `toISOString()` gives for a date-time of years 1 to 9999
      starts with the date-time in the backend's format, so either default
      time is accepted by the backend as that minute. */
  lemma HydratedTimesConvert(s: UiState, dt: CivilTime.DateTime, secondsAndZone: string)
    requires CivilTime.Valid(dt) && dt.year <= 9999
    ensures var t := AfterHydration(s, CivilTime.Format(dt) + secondsAndZone);
      && t.startTime == t.endTime == CivilTime.Format(dt)
      && CivilTime.ConvertTime(t.startTime) == Success(CivilTime.Timestamp(dt))
  {
    var iso := CivilTime.Format(dt) + secondsAndZone;
    assert iso[..16] == CivilTime.Format(dt);
    CivilTime.ConvertTimeOfFormat(dt);
  }

  function AfterLogGroupChange(s: UiState, selectedGroup: string): UiState {
    s.(logGroup := selectedGroup, logStream := "")
  }

  function AfterLogStreamChange(s: UiState, selectedStream: string): UiState {
    s.(logStream := selectedStream)
  }

  /** The `onChange` handlers of the three text inputs: `setStartTime`,
      `setEndTime` and `setErrorMessageInput` with the typed value. */
  function AfterStartTimeChange(s: UiState, value: string): UiState {
    s.(startTime := value)
  }

  function AfterEndTimeChange(s: UiState, value: string): UiState {
    s.(endTime := value)
  }

  function AfterErrorMessageInputChange(s: UiState, value: string): UiState {
    s.(errorMessageInput := value)
  }

  /** The request `fetchLogs` sends, or None when it returns early. */
  function LogsRequestOf(s: UiState): Option<LogsRequest> {
    if !s.hydrated || s.startTime == "" || s.endTime == "" then None
    else if s.logGroup == "" || s.logStream == "" || s.errorMessageInput == "" then None
    else Some(LogsRequest(ResolveLogGroup(s.logGroup), ResolveLogStream(s.logStream),
                          s.startTime, s.endTime, s.errorMessageInput))
  }

  const LogsFailureMessage: string := "Error fetching logs. Please try again."

  function AfterFetchLogs(s: UiState, response: LogsResponse): UiState {
    if LogsRequestOf(s).None? then s
    else AfterLogsResponse(s.(hasQueried := true), response)
  }

  /** The `try` block of `fetchLogs` and its `catch`. */
  function AfterLogsResponse(s: UiState, response: LogsResponse): UiState {
    match response
    case LogsUnreachable =>
      s.(logs := [], codeSnippets := [], analysis := "", logErrorMessage := LogsFailureMessage)
    case LogsBody(error, logs, snippets, analysis) =>
      if Truthy(error) then
        s.(logErrorMessage := error.value, logs := [], codeSnippets := [], analysis := "")
      else AfterLogsData(s, logs, snippets, analysis)
  }

  /** A body without an error: its logs, then its snippets, then its
      analysis are stored; the tab follows the last of them present. */
  function AfterLogsData(s: UiState, logs: Option<seq<string>>, snippets: Option<seq<Snippet>>,
                         analysis: Option<string>): UiState {
    WithAnalysis(WithSnippets(WithLogs(s, logs), snippets), analysis)
  }

  function WithLogs(s: UiState, logs: Option<seq<string>>): UiState {
    s.(logs := if logs.Some? then logs.value else [], logErrorMessage := "")
  }

  function WithSnippets(s: UiState, snippets: Option<seq<Snippet>>): UiState {
    if snippets.Some? && |snippets.value| > 0 then s.(codeSnippets := snippets.value, activeTab := "code")
    else s.(codeSnippets := [])
  }

  function WithAnalysis(s: UiState, analysis: Option<string>): UiState {
    if HasText(analysis) then s.(analysis := analysis.value, activeTab := "analysis")
    else s.(analysis := "")
  }

  function AfterFetchCode(s: UiState, response: CodeResponse): UiState {
    if |s.logs| == 0 then s
    else match response
      case CodeUnreachable => s.(codeSnippets := [])
      case CodeBody(error, code) =>
        if Truthy(error) || code.None? then s.(codeSnippets := [])
        else s.(codeSnippets := code.value, activeTab := "code")
  }

  function AfterFetchDebugInfo(s: UiState, response: DebugResponse): UiState {
    if |s.logs| == 0 || |s.codeSnippets| == 0 then s
    else match response
      case DebugUnreachable => s.(debugInfo := "")
      case DebugBody(error, info) =>
        if Truthy(error) then s.(debugInfo := "")
        else s.(debugInfo := info, analysis := info, activeTab := "analysis")
  }

  // ---------------------------------------------------------------------
  // Properties of the transitions

  lemma InitialConsistent()
    ensures Consistent(Initial)
    ensures !GetLogsEnabled(Initial) && !GetCodeEnabled(Initial) && !DebugEnabled(Initial)
  {
  }

  /** Every handler keeps the state consistent. */
  lemma HandlersKeepConsistent(s: UiState, nowIso: string, name: string)
    requires Consistent(s)
    ensures Consistent(AfterHydration(s, nowIso))
    ensures Consistent(AfterLogGroupChange(s, name))
    ensures Consistent(AfterLogStreamChange(s, name))
    ensures Consistent(AfterStartTimeChange(s, name))
    ensures Consistent(AfterEndTimeChange(s, name))
    ensures Consistent(AfterErrorMessageInputChange(s, name))
  {
  }

  /** After hydration, picking a group and then a stream and typing both
      times and the message makes Get Logs send exactly those inputs, the
      selector values resolved to their CloudWatch names; a blank entry
      keeps the request from going out. */
  lemma InputsReachRequest(s: UiState, group: string, stream: string,
                           start: string, end: string, message: string)
    requires s.hydrated
    ensures var t := AfterErrorMessageInputChange(AfterEndTimeChange(AfterStartTimeChange(
                       AfterLogStreamChange(AfterLogGroupChange(s, group), stream), start), end), message);
      && (LogsRequestOf(t).Some? <==> group != "" && stream != "" && start != "" && end != "" && message != "")
      && (LogsRequestOf(t).Some? ==>
            LogsRequestOf(t).value == LogsRequest(ResolveLogGroup(group), ResolveLogStream(stream), start, end, message))
  {
  }

  lemma FetchLogsKeepsConsistent(s: UiState, response: LogsResponse)
    requires Consistent(s)
    ensures Consistent(AfterFetchLogs(s, response))
  {
  }

  lemma FetchCodeKeepsConsistent(s: UiState, response: CodeResponse)
    requires Consistent(s)
    ensures Consistent(AfterFetchCode(s, response))
  {
  }

  lemma FetchDebugInfoKeepsConsistent(s: UiState, response: DebugResponse)
    requires Consistent(s)
    ensures Consistent(AfterFetchDebugInfo(s, response))
  {
  }

  /** Changing the group selects that group, clears the stream, touches
      nothing else, and so leaves Get Logs disabled until a stream is
      picked. */
  lemma LogGroupChangeResetsStream(s: UiState, selectedGroup: string)
    ensures var t := AfterLogGroupChange(s, selectedGroup);
      && t.logGroup == selectedGroup && t.logStream == ""
      && t.(logGroup := s.logGroup, logStream := s.logStream) == s
      && !GetLogsEnabled(t)
  {
  }

  /** `fetchLogs` goes ahead exactly when the component is hydrated and
      Get Logs is enabled; otherwise no state changes. */
  lemma FetchLogsGuard(s: UiState, response: LogsResponse)
    ensures LogsRequestOf(s).Some? <==> s.hydrated && GetLogsEnabled(s)
    ensures LogsRequestOf(s).None? ==> AfterFetchLogs(s, response) == s
  {
  }

  /** The request names the resolved group and stream and carries the
      time and message inputs unchanged. */
  lemma FetchLogsRequest(s: UiState)
    requires s.hydrated && GetLogsEnabled(s)
    ensures LogsRequestOf(s) == Some(LogsRequest(ResolveLogGroup(s.logGroup), ResolveLogStream(s.logStream),
                                                 s.startTime, s.endTime, s.errorMessageInput))
    ensures LogsRequestOf(s).value.logStream != ""
  {
  }

  /** An error answer, or no answer, clears the logs, snippets and analysis
      and shows a message; the inputs, the tab and the debug text stay. */
  lemma FetchLogsErrorClears(s: UiState, response: LogsResponse)
    requires LogsRequestOf(s).Some?
    requires response.LogsUnreachable? || Truthy(response.error)
    ensures var t := AfterFetchLogs(s, response);
      && t.logs == [] && t.codeSnippets == [] && t.analysis == ""
      && t.logErrorMessage == (if response.LogsUnreachable? then LogsFailureMessage else response.error.value)
      && t.logErrorMessage != ""
      && t.hasQueried
      && t.(logs := s.logs, codeSnippets := s.codeSnippets, analysis := s.analysis,
            logErrorMessage := s.logErrorMessage, hasQueried := s.hasQueried) == s
  {
  }

  /** After a successful answer the error message is cleared, and the tab
      shows the analysis if there is a non-blank one, else the code if
      there are snippets, else stays where it was. */
  lemma FetchLogsSuccessTab(s: UiState, response: LogsResponse)
    requires LogsRequestOf(s).Some? && response.LogsBody? && !Truthy(response.error)
    ensures var t := AfterFetchLogs(s, response);
      var blank := response.analysis.None? ||
                   forall i :: 0 <= i < |response.analysis.value| ==> JsWhitespace(response.analysis.value[i]);
      var anySnippets := response.codeSnippets.Some? && |response.codeSnippets.value| > 0;
      && t.logErrorMessage == ""
      && t.logs == (if response.logs.Some? then response.logs.value else [])
      && t.hasQueried
      && t.activeTab == (if !blank then "analysis" else if anySnippets then "code" else s.activeTab)
      && t.analysis == (if blank then "" else response.analysis.value)
      && t.codeSnippets == (if anySnippets then response.codeSnippets.value else [])
      && t.(logs := s.logs, codeSnippets := s.codeSnippets, analysis := s.analysis, activeTab := s.activeTab,
            logErrorMessage := s.logErrorMessage, hasQueried := s.hasQueried) == s
  {
    if response.analysis.Some? {
      TrimEmptyIffBlank(response.analysis.value);
    }
  }

  /** `fetchCode` needs logs; a good answer installs the snippets and
      switches to the code tab; no answer, an error or an absent `code`
      field clears them. The logs are never touched. */
  lemma FetchCodeSpec(s: UiState, response: CodeResponse)
    ensures var t := AfterFetchCode(s, response);
      && t.logs == s.logs
      && (!GetCodeEnabled(s) ==> t == s)
      && (GetCodeEnabled(s) && response.CodeBody? && !Truthy(response.error) && response.code.Some? ==>
            t == s.(codeSnippets := response.code.value, activeTab := "code"))
      && (GetCodeEnabled(s) && (response.CodeUnreachable? || Truthy(response.error) || response.code.None?) ==>
            t == s.(codeSnippets := []))
  {
  }

  /** A good debug answer puts the same text in `debugInfo` and `analysis`
      and shows the analysis tab; an error only clears `debugInfo`. */
  lemma FetchDebugInfoSpec(s: UiState, response: DebugResponse)
    ensures var t := AfterFetchDebugInfo(s, response);
      && (!DebugEnabled(s) ==> t == s)
      && (DebugEnabled(s) && response.DebugBody? && !Truthy(response.error) ==>
            t.debugInfo == response.debugInfo && t.analysis == response.debugInfo && t.activeTab == "analysis"
            && t.(debugInfo := s.debugInfo, analysis := s.analysis, activeTab := s.activeTab) == s)
      && (DebugEnabled(s) && (response.DebugUnreachable? || Truthy(response.error)) ==>
            t == s.(debugInfo := ""))
  {
  }

  // ---------------------------------------------------------------------
  // The component

  class DebuggingUI {
    var startTime: string
    var endTime: string
    var hydrated: bool
    var logs: seq<string>
    var codeSnippets: seq<Snippet>
    var debugInfo: string
    var logGroup: string
    var logStream: string
    var errorMessageInput: string
    var logErrorMessage: string
    var errorMessage: string
    var hasQueried: bool
    var analysis: string
    var activeTab: string

    /** The current values of all the state variables. */
    function State(): UiState
      reads this
    {
      UiState(startTime, endTime, hydrated, logs, codeSnippets, debugInfo, logGroup, logStream,
              errorMessageInput, logErrorMessage, errorMessage, hasQueried, analysis, activeTab)
    }

    predicate Valid()
      reads this
    {
      Consistent(State())
    }

    /** The `useState` initial values. */
    constructor ()
      ensures State() == Initial && Valid()
    {
      startTime, endTime, hydrated := "", "", false;
      logs, codeSnippets, debugInfo := [], [], "";
      logGroup, logStream, errorMessageInput, logErrorMessage := "", "", "", "";
      errorMessage, hasQueried, analysis, activeTab := "", false, "", "logs";
    }

    method Hydrate(nowIso: string)
      requires Valid()
      modifies this
      ensures State() == AfterHydration(old(State()), nowIso) && Valid()
    {
      hydrated := true;
      var now := if |nowIso| <= 16 then nowIso else nowIso[..16];
      startTime := now;
      endTime := now;
    }

    method HandleLogGroupChange(selectedGroup: string)
      requires Valid()
      modifies this
      ensures State() == AfterLogGroupChange(old(State()), selectedGroup) && Valid()
    {
      logGroup := selectedGroup;
      logStream := "";
    }

    method HandleLogStreamChange(selectedStream: string)
      requires Valid()
      modifies this
      ensures State() == AfterLogStreamChange(old(State()), selectedStream) && Valid()
    {
      logStream := selectedStream;
    }

    method SetStartTime(value: string)
      requires Valid()
      modifies this
      ensures State() == AfterStartTimeChange(old(State()), value) && Valid()
    {
      startTime := value;
    }

    method SetEndTime(value: string)
      requires Valid()
      modifies this
      ensures State() == AfterEndTimeChange(old(State()), value) && Valid()
    {
      endTime := value;
    }

    method SetErrorMessageInput(value: string)
      requires Valid()
      modifies this
      ensures State() == AfterErrorMessageInputChange(old(State()), value) && Valid()
    {
      errorMessageInput := value;
    }

    method FetchLogs(response: LogsResponse) returns (request: Option<LogsRequest>)
      requires Valid()
      modifies this
      ensures request == LogsRequestOf(old(State()))
      ensures State() == AfterFetchLogs(old(State()), response) && Valid()
    {
      FetchLogsKeepsConsistent(State(), response);
      if !hydrated || startTime == "" || endTime == "" {
        return None;
      }
      if logGroup == "" || logStream == "" || errorMessageInput == "" {
        return None;
      }
      hasQueried := true;
      request := Some(LogsRequest(ResolveLogGroup(logGroup), ResolveLogStream(logStream),
                                  startTime, endTime, errorMessageInput));
      ApplyLogsResponse(response);
    }

    /** The `try` block of `fetchLogs`, with its `catch`. */
    method ApplyLogsResponse(response: LogsResponse)
      modifies this
      ensures State() == AfterLogsResponse(old(State()), response)
    {
      match response
      case LogsUnreachable =>
        logs := [];
        codeSnippets := [];
        analysis := "";
        logErrorMessage := LogsFailureMessage;
      case LogsBody(error, dataLogs, dataSnippets, dataAnalysis) =>
        if Truthy(error) {
          logErrorMessage := error.value;
          logs := [];
          codeSnippets := [];
          analysis := "";
        } else {
          StoreLogsData(dataLogs, dataSnippets, dataAnalysis);
        }
    }

    method StoreLogsData(dataLogs: Option<seq<string>>, dataSnippets: Option<seq<Snippet>>,
                         dataAnalysis: Option<string>)
      modifies this
      ensures State() == AfterLogsData(old(State()), dataLogs, dataSnippets, dataAnalysis)
    {
      logs := if dataLogs.Some? then dataLogs.value else [];
      logErrorMessage := "";
      StoreSnippets(dataSnippets);
      StoreAnalysis(dataAnalysis);
    }

    method StoreSnippets(dataSnippets: Option<seq<Snippet>>)
      modifies this
      ensures State() == WithSnippets(old(State()), dataSnippets)
    {
      if dataSnippets.Some? && |dataSnippets.value| > 0 {
        codeSnippets := dataSnippets.value;
        activeTab := "code";
      } else {
        codeSnippets := [];
      }
    }

    method StoreAnalysis(dataAnalysis: Option<string>)
      modifies this
      ensures State() == WithAnalysis(old(State()), dataAnalysis)
    {
      if HasText(dataAnalysis) {
        analysis := dataAnalysis.value;
        activeTab := "analysis";
      } else {
        analysis := "";
      }
    }

    method FetchCode(response: CodeResponse) returns (sent: Option<seq<string>>)
      requires Valid()
      modifies this
      ensures sent == if |old(logs)| == 0 then None else Some(old(logs))
      ensures State() == AfterFetchCode(old(State()), response) && Valid()
    {
      FetchCodeKeepsConsistent(State(), response);
      if |logs| == 0 {
        return None;
      }
      sent := Some(logs);
      match response
      case CodeUnreachable =>
        codeSnippets := [];
      case CodeBody(error, code) =>
        if Truthy(error) {
          codeSnippets := [];
        } else if code.None? {
          // spreading an absent `data.code` throws; the catch clears the snippets
          codeSnippets := [];
        } else {
          codeSnippets := code.value;
          activeTab := "code";
        }
    }

    method FetchDebugInfo(response: DebugResponse) returns (sent: Option<(seq<string>, seq<Snippet>)>)
      requires Valid()
      modifies this
      ensures sent == if |old(logs)| == 0 || |old(codeSnippets)| == 0 then None
                      else Some((old(logs), old(codeSnippets)))
      ensures State() == AfterFetchDebugInfo(old(State()), response) && Valid()
    {
      FetchDebugInfoKeepsConsistent(State(), response);
      if |logs| == 0 || |codeSnippets| == 0 {
        return None;
      }
      sent := Some((logs, codeSnippets));
      match response
      case DebugUnreachable =>
        debugInfo := "";
      case DebugBody(error, info) =>
        if Truthy(error) {
          debugInfo := "";
        } else {
          debugInfo := info;
          analysis := info;
          activeTab := "analysis";
        }
    }
  }
}
