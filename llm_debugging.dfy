/** Prompt assembly in backend/llm_debugging.py: `format_java_code`,
    `format_logs` and the fixed template of `ask_gpt`. The chat-completion
    call itself is not modelled; this module ends with the prompt string
    that would be sent. */
module LlmDebugging {
  import opened Wrappers
  import opened SeqUtil
  import opened PyStr

  /** What `format_java_code` is given: a list of snippets, or one string. */
  datatype CodeInput = SnippetList(snippets: seq<string>) | Single(code: string)

  // ---------------------------------------------------------------------
  // format_java_code

  const CodeOpen: string := "```java\n"
  const CodeClose: string := "\n```"

  /** The first replacement: each two-character backslash-`n` becomes a
      newline. */
  function UnescapeNewlines(s: string): string {
    Replace(s, "\\n", "\n")
  }

  /** The per-snippet transform: unescape newlines, then double every
      remaining backslash. */
  function Transform(s: string): string {
    Replace(UnescapeNewlines(s), "\\", "\\\\")
  }

  /** The text between the fences: the transformed snippets joined with a
      blank line, or the transformed single string. */
  function CodeBody(code: CodeInput): string {
    match code
    case SnippetList(xs) => Join("\n\n", Map(xs, Transform))
    case Single(s) => Transform(s)
  }

  /** `format_java_code`: the body inside a ```java fence. */
  function FormatJavaCode(code: CodeInput): (r: string)
    ensures StartsWith(r, CodeOpen)
    ensures |r| >= |CodeOpen| + |CodeClose| && r[|r| - |CodeClose|..] == CodeClose
    ensures r[|CodeOpen|..|r| - |CodeClose|] == CodeBody(code)
  {
    var body := CodeBody(code);
    var r := CodeOpen + body + CodeClose;
    assert r[|CodeOpen|..|r| - |CodeClose|] == body;
    r
  }

  /** An empty list renders as an empty fence. */
  lemma EmptyListFormat()
    ensures FormatJavaCode(SnippetList([])) == "```java\n\n```"
  {
    assert Map([], Transform) == [];
  }

  /** A one-element list renders exactly as the single string does: both
      branches apply the same transform. */
  lemma SingletonListAsSingle(s: string)
    ensures FormatJavaCode(SnippetList([s])) == FormatJavaCode(Single(s))
  {
    assert Map([s], Transform) == [Transform(s)];
  }

  /** Snippets stay in input order: the first one's transform comes first,
      then a blank line, then the rest. */
  lemma ListBodyCons(x: string, xs: seq<string>)
    requires |xs| > 0
    ensures CodeBody(SnippetList([x] + xs)) == Transform(x) + "\n\n" + CodeBody(SnippetList(xs))
  {
    var ys := Map([x] + xs, Transform);
    assert ys[1..] == Map(xs, Transform);
  }

  /** The body of a list is as long as all the transformed snippets plus
      two characters between each neighbouring pair. */
  lemma ListBodyLength(xs: seq<string>)
    requires |xs| > 0
    ensures |CodeBody(SnippetList(xs))| == TotalLength(Map(xs, Transform)) + 2 * (|xs| - 1)
  {
    JoinLength("\n\n", Map(xs, Transform));
  }

  /** After the first replacement no backslash-`n` pair is left, and the
      result starts with `n` only when the input did. */
  lemma {:induction false} UnescapeLeavesNoPair(s: string)
    ensures !Contains(UnescapeNewlines(s), "\\n")
    ensures |UnescapeNewlines(s)| > 0 && UnescapeNewlines(s)[0] == 'n' ==> |s| > 0 && s[0] == 'n'
    decreases |s|
  {
    var r := UnescapeNewlines(s);
    if s != [] {
      if StartsWith(s, "\\n") {
        UnescapeLeavesNoPair(s[2..]);
        assert r == "\n" + UnescapeNewlines(s[2..]);
        assert r[1..] == UnescapeNewlines(s[2..]);
        assert !StartsWith(r, "\\n") by {
          assert r[0] == '\n';
        }
      } else {
        UnescapeLeavesNoPair(s[1..]);
        assert r == [s[0]] + UnescapeNewlines(s[1..]);
        assert r[1..] == UnescapeNewlines(s[1..]);
        if s[0] == '\\' && |s| > 1 {
          assert s[1] != 'n' by {
            assert s[..2] != "\\n";
          }
        }
      }
    }
  }

  /** Every backslash of the transformed text is doubled, so the count is
      even. */
  lemma TransformEvenBackslashes(s: string)
    ensures CountChar(Transform(s), '\\') == 2 * CountChar(UnescapeNewlines(s), '\\')
    ensures CountChar(Transform(s), '\\') % 2 == 0
  {
    DoubleCharCount(UnescapeNewlines(s), '\\');
  }

  /** Text without backslashes passes through the transform unchanged. */
  lemma {:induction false} TransformPlain(s: string)
    requires '\\' !in s
    ensures UnescapeNewlines(s) == s
    ensures Transform(s) == s
  {
    ReplaceWithoutStart(s, "\\n", "\n");
    ReplaceWithoutStart(s, "\\", "\\\\");
  }

  /** Replacing a pattern whose first character is absent changes nothing. */
  lemma {:induction false} ReplaceWithoutStart(s: string, pat: string, rep: string)
    requires |pat| > 0 && pat[0] !in s
    ensures Replace(s, pat, rep) == s
    decreases |s|
  {
    if s != [] {
      ReplaceWithoutStart(s[1..], pat, rep);
      assert [s[0]] + s[1..] == s;
    }
  }

  // ---------------------------------------------------------------------
  // format_logs

  /** `format_logs`: the serializer's text (`json.dumps(logs, indent=2)`),
      or `str(logs)` when the serializer raises. It never fails. */
  function FormatLogs<L>(logs: L, serialize: L -> Option<string>, show: L -> string): (r: string)
    ensures serialize(logs).Some? ==> r == serialize(logs).value
    ensures serialize(logs).None? ==> r == show(logs)
  {
    match serialize(logs)
    case Some(text) => text
    case None => show(logs)
  }

  // ---------------------------------------------------------------------
  // the prompt template of ask_gpt

  const PromptHead: string :=
    "\n    You are an expert Java developer and troubleshooting engineer. Below are error logs and relevant Java code.\n"
    + "\n"
    + "    \U{1F4CC} **Error Logs (structured JSON):**\n"
    + "    ```json\n"
    + "    "

  const PromptMiddle: string :=
    "\n    ```\n"
    + "\n"
    + "    \U{1F4CC} **Relevant Java Code:**\n"
    + "    "

  const PromptTail: string :=
    "\n"
    + "\n"
    + "    **Debugging Task:**  \n"
    + "    - Analyze the logs and Java code.\n"
    + "    - Identify the most likely **root cause** of the issue.\n"
    + "    - Suggest **fixes** with specific Java code changes.\n"
    + "\n"
    + "    Respond with a **detailed explanation** and **proposed solution**.\n"
    + "    "

  /** The f-string `prompt` with both placeholders filled in. */
  function BuildPrompt(structuredLogs: string, formattedCode: string): string {
    PromptHead + structuredLogs + PromptMiddle + formattedCode + PromptTail
  }

  /** Position of the formatted code inside the prompt. */
  function CodeOffset(structuredLogs: string): nat {
    |PromptHead| + |structuredLogs| + |PromptMiddle|
  }

  /** Where each of five concatenated parts lies in the whole. */
  lemma {:induction false} FiveParts<T>(a: seq<T>, b: seq<T>, c: seq<T>, d: seq<T>, e: seq<T>)
    ensures var p := a + b + c + d + e;
      var i := |a| + |b| + |c|;
      && |p| == |a| + |b| + |c| + |d| + |e|
      && p[..|a|] == a
      && p[|a|..|a| + |b|] == b
      && p[|a| + |b|..i] == c
      && p[i..i + |d|] == d
      && p[i + |d|..] == e
  {
    var p := a + b + c + d + e;
    var i := |a| + |b| + |c|;
    assert p[..|a|] == a;
    assert p[|a|..|a| + |b|] == b;
    assert p[|a| + |b|..i] == c;
    assert p[i..i + |d|] == d;
    assert p[i + |d|..] == e;
  }

  /** The prompt is the fixed template around the two inserted texts: the
      logs sit right after the head, the code right after the middle part,
      and the prompt ends with the fixed tail. */
  lemma PromptLayout(structuredLogs: string, formattedCode: string)
    ensures var p := BuildPrompt(structuredLogs, formattedCode);
      var c := CodeOffset(structuredLogs);
      && |p| == |PromptHead| + |structuredLogs| + |PromptMiddle| + |formattedCode| + |PromptTail|
      && p[..|PromptHead|] == PromptHead
      && p[|PromptHead|..|PromptHead| + |structuredLogs|] == structuredLogs
      && p[|PromptHead| + |structuredLogs|..c] == PromptMiddle
      && p[c..c + |formattedCode|] == formattedCode
      && p[c + |formattedCode|..] == PromptTail
  {
    FiveParts(PromptHead, structuredLogs, PromptMiddle, formattedCode, PromptTail);
  }

  /** Neither inserted text is lost or altered: two prompts built from logs
      of the same length are equal only if both inserted texts are. */
  lemma PromptDeterminesInputs(logs1: string, code1: string, logs2: string, code2: string)
    requires |logs1| == |logs2|
    requires BuildPrompt(logs1, code1) == BuildPrompt(logs2, code2)
    ensures logs1 == logs2 && code1 == code2
  {
    PromptLayout(logs1, code1);
    PromptLayout(logs2, code2);
    var p := BuildPrompt(logs1, code1);
    assert |code1| == |code2|;
  }

  /** The prompt `ask_gpt` sends for the given logs and code. */
  function AskGptPrompt<L>(logs: L, relevantCode: CodeInput,
                           serialize: L -> Option<string>, show: L -> string): string
  {
    BuildPrompt(FormatLogs(logs, serialize, show), FormatJavaCode(relevantCode))
  }

  /** The prompt `ask_gpt` builds holds the formatted logs right after the
      head of the template and the fenced code right after its middle. */
  lemma AskGptPromptCarriesBoth<L>(logs: L, relevantCode: CodeInput,
                                   serialize: L -> Option<string>, show: L -> string)
    ensures var structured := FormatLogs(logs, serialize, show);
      var code := FormatJavaCode(relevantCode);
      var p := AskGptPrompt(logs, relevantCode, serialize, show);
      var c := CodeOffset(structured);
      && c + |code| <= |p|
      && p[|PromptHead|..|PromptHead| + |structured|] == structured
      && p[c..c + |code|] == code
  {
    PromptLayout(FormatLogs(logs, serialize, show), FormatJavaCode(relevantCode));
  }
}
