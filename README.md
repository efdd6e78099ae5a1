# chat-with-logs, modelled in Dafny

chat-with-logs is a debugging assistant for a Java service. A user picks a CloudWatch log group and stream, a time window and an error message. The backend:

- pulls the matching log records;
- cuts a window of context around each occurrence of the error;
- searches an index of embedded Java sources for related code;
- asks a language model to explain the failure.

A React page drives the three steps (logs, code, analysis).

This project models the part of that pipeline that the program computes itself. Each module follows one source file:

| module | file | what it holds |
|---|---|---|
| `LogRetrieval` | `backend/log_retrieval.py` | `get_logs_with_context` after the query: the parse loop that skips malformed rows, the match indices, the `max_occurrences` cap with Python slice semantics, and the clipped ±5 windows with their numbered headers |
| `AwsLogs` | `backend/get_aws_logs.py` | the second copy of the same function, with its loops written out again and proved to meet the same specification as the first |
| `EmbedJava` | `backend/embed_java_v2.py` | `chunk_text`, the nested loop of `embed_code`, and the `zip` of `save_embeddings_json` |
| `LlmDebugging` | `backend/llm_debugging.py` | `format_java_code`, `format_logs` and the exact prompt template of `ask_gpt` |
| `CivilTime` | `backend/main.py` | `datetime.strptime(t, "%Y-%m-%dT%H:%M")` followed by the UTC `timestamp()`, as CPython's `_strptime` and `datetime` do them, with the inverse formatting and calendar facts |
| `MainApi` | `backend/main.py` | `fetch_logs`, which converts both times and then runs the extraction, and the `"\n".join` of `fetch_code` |
| `Frontend` | `frontend/components/DebuggingUI.tsx` | the component as a class with one field per `useState` variable; see below |

`Frontend` covers the group and stream lookups, the selector and text-input handlers, the three button predicates, and the state changes of `fetchLogs`, `fetchCode` and `fetchDebugInfo`. Each state change is a method, specified by a pure transition function on a `UiState` value.

`wrappers.dfy` and `py_str.dfy` are shared. They hold `Option`/`Result`, the list comprehensions used (`FilterMap` for try/except-continue loops, `Map`, `Flatten`) and the Python string operations the core relies on: `in`, `replace`, `join`, `split` and `str(int)`.

Calls the source makes to outside services are parameters of the model:

- the CloudWatch query, as `query`;
- `json.loads` and key lookup of a row, as `decode`;
- the tokenizer, as `encode`, `decode` and `countTokens`;
- the embedding API, as `getEmbedding`;
- `json.dumps` and `str`, as `serialize` and `show`;
- the current time, as `nowIso`;
- the outcome of each `fetch`, as a response value.

## Model

| member | source | states |
|---|---|---|
| LogRetrieval.GetLogsWithContext | backend/log_retrieval.py:57-91 | the lines returned are the context lines of the rows the decoder accepts, in row order |
| LogRetrieval.ParseRows | backend/log_retrieval.py:58-68 | the parse loop keeps exactly the decodable rows, in order; malformed rows are skipped |
| LogRetrieval.EmitOccurrences | backend/log_retrieval.py:80-89 | the occurrence loop produces, for each kept match in turn, its numbered header followed by its formatted window |
| LogRetrieval.ErrorIndicesSpec | backend/log_retrieval.py:71 | the indices are ascending, in range, and exactly the records whose log contains the message |
| LogRetrieval.MatchesFromSpec | backend/log_retrieval.py:71 | from any start position, the indices found are exactly the later matches, in ascending order |
| LogRetrieval.MatchesFromSound | backend/log_retrieval.py:71 | every index found is a record whose log contains the message |
| LogRetrieval.MatchesFromComplete | backend/log_retrieval.py:71 | no matching record is missed |
| LogRetrieval.MatchesFromAscending | backend/log_retrieval.py:71 | indices come in increasing order, as `enumerate` yields them |
| LogRetrieval.EmptyMessageMatchesAll | backend/log_retrieval.py:71 | the default empty error message matches every record |
| LogRetrieval.EmptyMatchesFrom | backend/log_retrieval.py:71 | with an empty message, every index from the start position on is a match |
| LogRetrieval.NoMatchNoLines | backend/log_retrieval.py:73-75 | when no log contains the message, the result is the empty list |
| LogRetrieval.KeepFirst | backend/log_retrieval.py:81 | `xs[:m]`: the first `min(m, len)` indices, and for negative `m` all but the last `-m` |
| LogRetrieval.KeptMatches | backend/log_retrieval.py:81 | with a cap `m >= 0`, exactly the first `min(m, matches)` matches get a window, in order |
| LogRetrieval.WindowSpec | backend/log_retrieval.py:82-85 | the clipped window holds exactly the records within five positions of the match (the match included), never beyond either end, with 1 to 11 records |
| LogRetrieval.FormatAll | backend/log_retrieval.py:86 | one formatted line per record of the window |
| LogRetrieval.BlocksLength | backend/log_retrieval.py:80-89 | the output has one header plus the window size for each kept match |
| LogRetrieval.BlocksPrefix | backend/log_retrieval.py:80-89 | the lines of the first `j` matches are a prefix of the lines of all of them (the list only grows) |
| LogRetrieval.BlocksSnoc | backend/log_retrieval.py:88-89 | one more match appends its header and then its formatted window |
| LogRetrieval.BlockAt | backend/log_retrieval.py:88-89 | header number `k + 1` sits where the first `k` windows end, and the `k`-th window's formatted records follow it directly |
| LogRetrieval.OverlappingWindowsRepeat | backend/log_retrieval.py:80-89 | overlapping windows are not merged: two adjacent matches each bring both records, under headers 1 and 2 |
| AwsLogs.GetLogsWithContext | backend/get_aws_logs.py:38-72 | the second copy returns, for every rows, decoder, message and cap, exactly the lines `LogRetrieval.ContextLines` gives for the decodable rows, the specification `LogRetrieval.GetLogsWithContext` meets; so both copies agree |
| AwsLogs.ParseRows | backend/get_aws_logs.py:38-49 | its parse loop keeps exactly the decodable rows |
| AwsLogs.EmitOccurrences | backend/get_aws_logs.py:61-70 | its occurrence loop produces the same header-and-window blocks |
| EmbedJava.ChunkText | backend/embed_java_v2.py:38-48 | a zero `max_tokens` raises, a negative one gives no chunks, and a positive one gives the decoded consecutive token slices of at most `max_tokens` |
| EmbedJava.ChunksConcatenate | backend/embed_java_v2.py:44-45 | the token chunks, concatenated, are exactly the text's tokens |
| EmbedJava.ChunkSizes | backend/embed_java_v2.py:44-45 | every chunk has 1 to `max_tokens` tokens and all but the last have exactly `max_tokens` |
| EmbedJava.ChunkCount | backend/embed_java_v2.py:44 | there are `ceil(len(tokens) / max_tokens)` chunks; an empty text has none |
| EmbedJava.TokenChunksStep | backend/embed_java_v2.py:44-46 | each pass of the loop takes the next `min(max_tokens, remaining)` tokens |
| EmbedJava.EmbedCode | backend/embed_java_v2.py:61-80 | the embeddings are those of every chunk of every snippet whose call succeeds, in snippet then chunk order; the warning fires for exactly the chunks above 8192 tokens, which are still sent |
| EmbedJava.EmbedChunks | backend/embed_java_v2.py:67-78 | the inner loop appends the successful embeddings of one snippet's chunks and the oversized chunks' warnings |
| EmbedJava.AllChunksSnoc | backend/embed_java_v2.py:64-66 | one more snippet appends its own chunks |
| EmbedJava.OuterStep | backend/embed_java_v2.py:64-78 | one pass of the outer loop adds the results for that snippet's chunks |
| EmbedJava.AllChunksAppend | backend/embed_java_v2.py:64-66 | the chunks of two snippet lists are the chunks of each, one after the other |
| EmbedJava.EmbeddingsPerChunk | backend/embed_java_v2.py:61-80 | never more embeddings than chunks; when every call succeeds, exactly one per chunk, in chunk order |
| EmbedJava.FailedChunkSkipped | backend/embed_java_v2.py:74-78 | a chunk whose call raises contributes nothing, and the loop carries on with the chunks after it |
| EmbedJava.SaveRecords | backend/embed_java_v2.py:87-89 | `zip` pairs the `i`-th embedding with the `i`-th snippet and stops at the shorter list |
| EmbedJava.SaveRecordsUnzip | backend/embed_java_v2.py:89 | unzipping the records gives the shorter list back, plus the matching prefix of the longer one |
| EmbedJava.SingleChunk | backend/embed_java_v2.py:38-48 | a snippet of 1 to 7000 tokens is one chunk |
| EmbedJava.ScriptRecordsMisaligned | backend/embed_java_v2.py:89-94 | as written, the zip over two one-chunk files whose first embedding call fails builds one record, pairing the second file's embedding with the first file's code |
| EmbedJava.AlignedRecordsCorrect | backend/embed_java_v2.py:89-94 | pairing each embedding with its own chunk gives records whose code is the text that was embedded, with the embeddings in `embed_code`'s order |
| EmbedJava.AlignedFilterMap | backend/embed_java_v2.py:61-80 | over any chunk list, the aligned records match the embeddings one for one |
| LlmDebugging.FormatJavaCode | backend/llm_debugging.py:8-16 | the result is the transformed code inside a ```` ```java ```` fence, with the fence markers on either side |
| LlmDebugging.EmptyListFormat | backend/llm_debugging.py:10-11 | an empty snippet list renders as an empty fence |
| LlmDebugging.SingletonListAsSingle | backend/llm_debugging.py:10-13 | a one-element list renders exactly like the single string |
| LlmDebugging.ListBodyCons | backend/llm_debugging.py:11 | snippets keep their order, with a blank line between neighbours |
| LlmDebugging.ListBodyLength | backend/llm_debugging.py:11 | the list body is the transformed snippets plus two characters per gap |
| LlmDebugging.UnescapeLeavesNoPair | backend/llm_debugging.py:11-13 | after the first replace, no backslash-`n` pair is left |
| LlmDebugging.TransformEvenBackslashes | backend/llm_debugging.py:11-13 | the second replace doubles every remaining backslash, so their count is even |
| LlmDebugging.TransformPlain | backend/llm_debugging.py:11-13 | code without backslashes passes through both replaces unchanged |
| LlmDebugging.ReplaceWithoutStart | backend/llm_debugging.py:11-13 | a replace whose pattern's first character does not occur changes nothing |
| LlmDebugging.FormatLogs | backend/llm_debugging.py:18-24 | the JSON text when serialising succeeds, and otherwise `str(logs)`; it never raises |
| LlmDebugging.PromptLayout | backend/llm_debugging.py:32-49 | the prompt is the fixed template head, the logs, the fixed middle, the code and the fixed tail, each at a known offset |
| LlmDebugging.PromptDeterminesInputs | backend/llm_debugging.py:32-49 | two prompts built from logs of equal length are equal only if both inserted texts are |
| LlmDebugging.AskGptPromptCarriesBoth | backend/llm_debugging.py:26-49 | the prompt `ask_gpt` sends holds the formatted logs after the head and the fenced code after the middle |
| LlmDebugging.FiveParts | backend/llm_debugging.py:32-49 | each of five concatenated parts can be read back at its offset |
| CivilTime.ParseDateTime | backend/main.py:28-29 | a parsed date-time is a valid calendar date-time of years 1 to 9999 |
| CivilTime.ConvertTime | backend/main.py:28-29 | a converted timestamp is a whole number of minutes |
| CivilTime.FindSep | backend/main.py:28-29 | finds the first separator at or after a position, or reports that none is left |
| CivilTime.Separators | backend/main.py:28-29 | the four separators of the format come in order inside the text |
| CivilTime.FieldsAt | backend/main.py:28-29 | fields accepted by the `%Y`, `%m`, `%d`, `%H` and `%M` alternatives are in their ranges |
| CivilTime.ParseFormatRoundTrip | backend/main.py:28-29 | parsing the formatted text of any valid date-time of years 1 to 9999 gives it back |
| CivilTime.ParseFormat | backend/main.py:28-29 | formatted fields parse back field for field, and anything after the minutes is unconverted data |
| CivilTime.ConvertTimeOfFormat | backend/main.py:28-29 | a well-formed parameter converts to the seconds of its date-time |
| CivilTime.TrailingDataRejected | backend/main.py:28-29 | text after the minutes (for example seconds) raises `unconverted data remains` |
| CivilTime.NonexistentDayRejected | backend/main.py:28-29 | a day past the end of its month (February 30, say) is rejected |
| CivilTime.YearZeroRejected | backend/main.py:28-29 | year 0000 matches the pattern but is out of range |
| CivilTime.MonthThirteenRejected | backend/main.py:28-29 | month 13 does not match |
| CivilTime.ShortFieldsAccepted | backend/main.py:28-29 | one-digit fields and a lower-case `t` are accepted, as the case-insensitive pattern allows |
| CivilTime.ShortExampleSeparators | backend/main.py:28-29 | the separators of the short example are found where they are |
| CivilTime.ShortExampleFields | backend/main.py:28-29 | each one-digit field of the short example matches its alternative |
| CivilTime.EpochConvertsToZero | backend/main.py:28-29 | `1970-01-01T00:00` converts to 0 |
| CivilTime.EpochOrdinalCorrect | backend/main.py:28-29 | 1970-01-01 is day 719163 of the proleptic Gregorian calendar |
| CivilTime.TimestampMinutes | backend/main.py:28-29 | every timestamp is a multiple of 60 seconds |
| CivilTime.TimestampOrder | backend/main.py:28-29 | one date-time is earlier than another exactly when its timestamp is smaller |
| CivilTime.TimestampStrict | backend/main.py:28-29 | a later date-time has a strictly larger timestamp |
| CivilTime.OrdinalMonotone | backend/main.py:28-29 | a later year or month gives a larger day ordinal |
| CivilTime.NextMinuteAdds60 | backend/main.py:28-29 | the next minute is valid, later, and exactly 60 seconds on |
| CivilTime.NothingBetweenMinutes | backend/main.py:28-29 | no valid date-time lies strictly between a minute and the next |
| CivilTime.TimestampIsPosix | backend/main.py:28-29 | from 1970 on, the timestamp equals the POSIX "seconds since the Epoch" formula |
| CivilTime.DaysBeforeYearIsSum | backend/main.py:28-29 | the closed-form day count before a year equals the sum of the lengths of all earlier years |
| CivilTime.DaysBeforeYearStep | backend/main.py:28-29 | one year on, the count grows by that year's length |
| CivilTime.DaysBeforeYearMonotone | backend/main.py:28-29 | a later year starts after an earlier one ends |
| CivilTime.DaysBeforeMonthStep | backend/main.py:28-29 | one month on, the count grows by that month's length |
| CivilTime.DaysBeforeMonthMonotone | backend/main.py:28-29 | a later month starts after an earlier one ends |
| CivilTime.MonthsFillYear | backend/main.py:28-29 | the twelve months add up to the year |
| CivilTime.OrdinalInYear | backend/main.py:28-29 | a valid date lies within its year |
| CivilTime.Pad4Value | backend/main.py:28-29 | a four-digit year written out reads back as itself |
| CivilTime.Pad2Value | backend/main.py:28-29 | a two-digit field written out reads back as itself |
| CivilTime.Pad2Fields | backend/main.py:28-29 | two-digit fields in range match their `%m`, `%d`, `%H` and `%M` alternatives |
| CivilTime.FindSepAt | backend/main.py:28-29 | the first separator is found at its position |
| CivilTime.FixedSeparators | backend/main.py:28-29 | a text in the fixed 16-character layout has its separators at 4, 7, 10 and 13 |
| CivilTime.DigitOf | backend/main.py:28-29 | the digit character of `d` reads back as `d` |
| MainApi.FetchLogs | backend/main.py:26-32 | a bad start time raises before the end time is looked at; a bad end time raises before any query; otherwise the logs are the context lines of the query rows over the converted interval, with the default cap of 3 |
| MainApi.SecondsInStartRejected | backend/main.py:28 | a start time with a seconds field makes the request fail |
| MainApi.JoinNoLines | backend/main.py:37 | no log lines give the empty search text |
| MainApi.JoinLinesSplit | backend/main.py:37 | lines without newlines can be split back out of the search text, one piece per line |
| MainApi.JoinLinesLength | backend/main.py:37 | the search text is the lines plus one newline per gap |
| Frontend.ResolveLogGroupSpec | frontend/components/DebuggingUI.tsx:46-53 | exactly the two known groups resolve to a name (and to which one); anything else becomes "" |
| Frontend.ResolveLogStreamSpec | frontend/components/DebuggingUI.tsx:56-67 | a stream is renamed exactly when it is one of the six known names; others pass through unchanged |
| Frontend.ResolveLogStreamIdempotent | frontend/components/DebuggingUI.tsx:56-67 | resolving twice is resolving once |
| Frontend.OfferedStreamsResolve | frontend/components/DebuggingUI.tsx:41-44 | every stream the selector offers has its own CloudWatch name |
| Frontend.TrimEmptyIffBlank | frontend/components/DebuggingUI.tsx:131 | `trim()` gives "" exactly when every character is white space |
| Frontend.TrimStartSpec | frontend/components/DebuggingUI.tsx:131 | leading trim empties a string exactly when it is all white space |
| Frontend.TrimEndSpec | frontend/components/DebuggingUI.tsx:131 | trailing trim empties a string exactly when it is all white space, and otherwise leaves a non-space last character |
| Frontend.DebugNeedsGetCode | frontend/components/DebuggingUI.tsx:213-214 | Debug is enabled exactly when Get Code is and there are snippets |
| Frontend.InitialConsistent | frontend/components/DebuggingUI.tsx:13-27 | the initial state is consistent and all three buttons are disabled |
| Frontend.HandlersKeepConsistent | frontend/components/DebuggingUI.tsx:31-77 | hydration, both selector handlers and the three text-input handlers keep the state consistent |
| Frontend.InputsReachRequest | frontend/components/DebuggingUI.tsx:80-99 | after hydration, choosing a group and stream and typing both times and the message makes Get Logs send exactly those inputs (group and stream resolved); any blank entry stops the request |
| Frontend.FetchLogsKeepsConsistent | frontend/components/DebuggingUI.tsx:79-144 | `fetchLogs` keeps the state consistent: an error message only with no logs, and logs or an error only after a query |
| Frontend.FetchCodeKeepsConsistent | frontend/components/DebuggingUI.tsx:146-177 | `fetchCode` keeps the state consistent |
| Frontend.FetchDebugInfoKeepsConsistent | frontend/components/DebuggingUI.tsx:179-209 | `fetchDebugInfo` keeps the state consistent |
| Frontend.HydratedTimesConvert | frontend/components/DebuggingUI.tsx:34-36 | the default times cut from `toISOString()` are accepted by the backend's conversion, as that minute |
| Frontend.LogGroupChangeResetsStream | frontend/components/DebuggingUI.tsx:69-73 | changing the group clears the stream, changes nothing else, and disables Get Logs |
| Frontend.FetchLogsGuard | frontend/components/DebuggingUI.tsx:80-88 | a request goes out exactly when the page is hydrated and Get Logs is enabled; otherwise nothing changes |
| Frontend.FetchLogsRequest | frontend/components/DebuggingUI.tsx:93-99 | the request carries the resolved group and stream and the raw times and message |
| Frontend.FetchLogsErrorClears | frontend/components/DebuggingUI.tsx:110-143 | an error or unreachable answer clears logs, snippets and analysis and shows a non-empty message; the inputs, tab and debug text stay |
| Frontend.FetchLogsSuccessTab | frontend/components/DebuggingUI.tsx:118-136 | a good answer clears the message and stores its logs (or `[]`), snippets and analysis; the tab goes to the analysis if it is not blank, else to the code if there are snippets, else stays; the inputs and debug text are untouched |
| Frontend.FetchCodeSpec | frontend/components/DebuggingUI.tsx:146-177 | without logs nothing happens; a good answer installs the snippets and shows the code tab; a failure, an error or an absent `code` field clears the snippets; the logs never change |
| Frontend.FetchDebugInfoSpec | frontend/components/DebuggingUI.tsx:179-209 | without logs and snippets nothing happens; a good answer sets both the debug text and the analysis and shows the analysis tab; a failure only clears the debug text |
| Frontend.DebuggingUI.constructor | frontend/components/DebuggingUI.tsx:13-27 | the fields start at the `useState` initial values |
| Frontend.DebuggingUI.Hydrate | frontend/components/DebuggingUI.tsx:31-38 | the times become the ISO time cut to 16 characters and the page is hydrated; the state stays consistent |
| Frontend.DebuggingUI.HandleLogGroupChange | frontend/components/DebuggingUI.tsx:69-73 | the group is set and the stream cleared |
| Frontend.DebuggingUI.HandleLogStreamChange | frontend/components/DebuggingUI.tsx:75-77 | the stream is set |
| Frontend.DebuggingUI.SetStartTime | frontend/components/DebuggingUI.tsx:251 | the start-time input sets `startTime` and nothing else; the state stays consistent |
| Frontend.DebuggingUI.SetEndTime | frontend/components/DebuggingUI.tsx:254 | the end-time input sets `endTime` and nothing else; the state stays consistent |
| Frontend.DebuggingUI.SetErrorMessageInput | frontend/components/DebuggingUI.tsx:257 | the message input sets `errorMessageInput` and nothing else; the state stays consistent |
| Frontend.DebuggingUI.FetchLogs | frontend/components/DebuggingUI.tsx:79-144 | returns the request sent (or none when a guard returns early); the new state is the transition of the old one |
| Frontend.DebuggingUI.ApplyLogsResponse | frontend/components/DebuggingUI.tsx:103-143 | the `try` block and its `catch` applied to the answer |
| Frontend.DebuggingUI.StoreLogsData | frontend/components/DebuggingUI.tsx:118-136 | the logs, snippets and analysis of a good answer are stored in that order |
| Frontend.DebuggingUI.StoreSnippets | frontend/components/DebuggingUI.tsx:122-128 | a non-empty snippet array is stored and shows the code tab; anything else clears the snippets |
| Frontend.DebuggingUI.StoreAnalysis | frontend/components/DebuggingUI.tsx:130-136 | a non-blank analysis is stored and shows the analysis tab; anything else clears it |
| Frontend.DebuggingUI.FetchCode | frontend/components/DebuggingUI.tsx:146-177 | sends the logs when there are any; the new state is the transition of the old one |
| Frontend.DebuggingUI.FetchDebugInfo | frontend/components/DebuggingUI.tsx:179-209 | sends the logs and snippets when both are present; the new state is the transition of the old one |
| PyStr.ContainsIff | backend/log_retrieval.py:71 | Python's `msg in log` holds exactly when `msg` occurs at some position |
| PyStr.EmptyContained | backend/log_retrieval.py:71 | the empty string is in every string |
| PyStr.DoubleCharCount | backend/llm_debugging.py:11-13 | replacing each backslash with two doubles their number |
| PyStr.ReplaceCharRemovesIt | backend/llm_debugging.py:11-13 | replacing a character with text that does not contain it removes it entirely |
| PyStr.JoinLength | backend/main.py:37 | a join is as long as its parts plus one separator per gap |
| PyStr.SplitJoin | backend/main.py:37 | splitting a join on its one-character separator gives back the parts that do not contain it |
| PyStr.NatToStringValue | backend/log_retrieval.py:88 | `str(n)` reads back as `n` |
| PyStr.NatToStringInjective | backend/log_retrieval.py:88 | distinct occurrence numbers print differently, so the headers are distinct |
| SeqUtil.FilterMapAppend | backend/log_retrieval.py:58-68 | skipping rows distributes over concatenation |
| SeqUtil.FilterMapAllSome | backend/embed_java_v2.py:74-76 | when every element succeeds, nothing is lost and the order is kept |

## Left out

- The CloudWatch Insights query, the polling until it completes, and the boto3 client (log_retrieval.py and get_aws_logs.py up to the wait loop). The query results enter as a row list.
- `json.loads` and the `time`/`log` key lookups enter as the `decode` oracle. A row it rejects stands for the `JSONDecodeError`/`KeyError` that the loop catches. Other exceptions are not modelled.
- LogRetrieval.GetLogsWithContext: the `limit` parameter is accepted and ignored, as in the source. The radius stays 5.
- The `print` calls in every file are left out, since they only write to the console. For the over-8192-tokens warning of `embed_code`, the model instead records which chunks trigger it.
- get_aws_logs.py builds its query from module-level `start_time`/`end_time` and runs script code at import. Only its `get_logs_with_context` body after the query is modelled.
- tiktoken is abstract. Nothing is assumed about how `encode` and `decode` relate, so no round trip through the tokenizer is claimed.
- The OpenAI embedding and chat-completion calls, and the `backoff` retry decorator. The embedding call's final outcome is the `getEmbedding` oracle, with `None` for a call that finally raises. The oracle is a function of the chunk text, so it is deterministic per text: two identical chunks always both succeed or both fail, whereas real rate limits, time-outs and exhausted backoff depend on timing. The model also assumes the module loads; with the client that provides `openai.embeddings.create`, the decorator's `openai.error.RateLimitError` may not exist. `ask_gpt` is modelled up to the prompt it sends.
- `read_java_files`, the FAISS index, `search_code`, and the file writes of `save_embeddings_json`, because they are file-system and library work. The model stops at the list of records that would be written.
- The `emb.tolist()` conversion and JSON encoding of the records. `get_embedding` returns `response.data[0].embedding`, a plain list, so as written `.tolist()` raises `AttributeError` inside the comprehension and no file is saved. The model stops at the pairing that `zip` builds.
- EmbedJava.ChunkText: the `ValueError` message is modelled only as a failure value, not its exact text.
- LlmDebugging.FormatLogs: `json.dumps` and `str` enter as oracles, so neither one's output text is modelled.
- LlmDebugging.PromptDeterminesInputs: the prompt's structure is stated as fixed positions and as injectivity for logs of a given length, not as "each text occurs exactly once". The inserted texts may themselves contain template fragments.
- `\d` in CPython's `strptime` also accepts non-ASCII decimal digits. CivilTime accepts ASCII digits only.
- CivilTime.ConvertTime: the float returned by `timestamp()` and its `int()` truncation are modelled as exact integer seconds. All values here are whole numbers far inside the exact range of a double.
- The FastAPI wiring (routing, query-parameter parsing, CORS, the `DebugRequest` model). A `ValueError` from the conversion becomes an error response outside this model; it is modelled as `MainApi.FetchLogs`'s `Failure`.
- JSX rendering, `fetch`, `encodeURIComponent`, `console` output and React's batching of state updates. Each handler's state updates are applied in source order.
- Interleaving across `await`: each async handler is one atomic transition from the state before its request to the state after its answer. In the page, other handlers can run while a request is pending (a group change while `fetchLogs` waits, say), and the updates made after the answer then land on that changed state. The model does not capture such interleavings.
- The `/code` endpoint answers with `search_code`'s list of plain strings, while the page declares its snippets as `[string, string]` tuples. `Frontend.Snippet` follows the page's declaration; the model does not capture how the page renders plain strings under that type.
- `logGroupMap[key] || default` also finds keys inherited from `Object.prototype` (such as `"constructor"`). The model looks up only the map's own keys.
- The `data.error` of each answer is modelled as an optional string and its truthiness. Other non-string `error` values (numbers, objects) are not modelled. The same goes for a `debug_info` that is absent or not a string.
- The `errorMessage` state variable is declared but never set by the modelled code. It stays at its initial value.
- The `/logs` endpoint answers only `{"logs": ...}`, so against this backend the page's `codeSnippets` and `analysis` branches of `fetchLogs` never fire. They are modelled as written, for any answer.

## Findings

| source | as written | input that shows it | evidently intended | confidence | as-written member | corrected member |
|---|---|---|---|---|---|---|
| backend/embed_java_v2.py:89-94 | `save_embeddings_json` zips the per-chunk embeddings with the per-file `java_code` list. Pair `i` joins the `i`-th successful chunk's embedding with file `i`'s code. From the first file with several chunks, or the first failed call, on, pairs are wrong wherever those two differ; they line up again only where extra chunks and failed calls cancel out, and the tail is cut at the shorter list, so pairs are dropped or misplaced. (As written, `.tolist()` on the list embedding then raises before anything is saved; see Left out.) | two one-chunk files "A" and "B", the embedding call failing on "A": the zip pairs B's embedding with the code "A" in the only record it builds | each saved embedding is stored beside the chunk it was computed from | not executed | EmbedJava.ScriptRecordsMisaligned | EmbedJava.AlignedRecordsCorrect |
