/** The reading of a DeepWiki answer (packages/opencode/src/tool/deepwiki.ts):
    a simplified reading of a server-sent events stream (section 9.2 of the
    WHATWG HTML Living Standard) that takes the first `data: ` line that
    decodes, and the choice of the tool's output from the decoded response.

    JSON decoding is an opaque partial function (`parse`): `None` stands for
    a payload `JSON.parse` rejects. The HTTP exchange is not modelled. */
module DeepWiki {
  import opened Wrappers
  import opened JsText

  const DataPrefix: string := "data: "

  /** The text after `data: `, i.e. `line.substring(6)`. */
  function Payload(line: string): string {
    SliceFrom(line, 6)
  }

  /** A line the parser returns: it starts with `data: `, has no "ping"
      anywhere, and its payload decodes. */
  predicate Accepts<J>(line: string, parse: string -> Option<J>) {
    StartsWith(line, DataPrefix) && !Contains(line, "ping") && parse(Payload(line)).Some?
  }

  /** The loop of `parseSSEResponse` over the lines: the first accepted
      line's decoded payload, or nothing. */
  function FirstData<J>(lines: seq<string>, parse: string -> Option<J>): Option<J>
    decreases |lines|
  {
    if lines == [] then None
    else if StartsWith(lines[0], DataPrefix) && !Contains(lines[0], "ping") then
      match parse(Payload(lines[0]))
      case Some(v) => Some(v)
      case None => FirstData(lines[1..], parse)
    else FirstData(lines[1..], parse)
  }

  /** `parseSSEResponse` */
  function ParseSSE<J>(text: string, parse: string -> Option<J>): Option<J> {
    FirstData(Split(text, '\n'), parse)
  }

  /** The result is the payload of the first accepted line, and there is a
      result exactly when some line is accepted. */
  lemma {:induction false} FirstDataSpec<J>(lines: seq<string>, parse: string -> Option<J>)
    ensures FirstData(lines, parse).None? <==> forall k :: 0 <= k < |lines| ==> !Accepts(lines[k], parse)
    ensures FirstData(lines, parse).Some? ==>
      exists k :: 0 <= k < |lines| && Accepts(lines[k], parse) && FirstData(lines, parse) == parse(Payload(lines[k]))
        && forall j :: 0 <= j < k ==> !Accepts(lines[j], parse)
    decreases |lines|
  {
    if lines != [] {
      FirstDataSpec(lines[1..], parse);
      if !Accepts(lines[0], parse) {
        assert FirstData(lines, parse) == FirstData(lines[1..], parse);
        forall k | 0 <= k < |lines[1..]|
          ensures lines[1..][k] == lines[k + 1]
        {
        }
        if FirstData(lines, parse).Some? {
          var k :| 0 <= k < |lines[1..]| && Accepts(lines[1..][k], parse)
            && FirstData(lines[1..], parse) == parse(Payload(lines[1..][k]))
            && forall j :: 0 <= j < k ==> !Accepts(lines[1..][j], parse);
          assert forall j :: 0 <= j < k + 1 ==> !Accepts(lines[j], parse) by {
            forall j | 0 <= j < k + 1
              ensures !Accepts(lines[j], parse)
            {
              if j > 0 {
                assert lines[j] == lines[1..][j - 1];
              }
            }
          }
          assert Accepts(lines[k + 1], parse);
        } else {
          forall k | 0 <= k < |lines|
            ensures !Accepts(lines[k], parse)
          {
            if k > 0 {
              assert lines[k] == lines[1..][k - 1];
            }
          }
        }
      } else {
        assert Accepts(lines[0], parse) && FirstData(lines, parse) == parse(Payload(lines[0]));
      }
    }
  }

  /** A line with "ping" in it is passed over even when its payload decodes. */
  lemma PingSkipped<J>(line: string, rest: seq<string>, parse: string -> Option<J>)
    requires Contains(line, "ping")
    ensures FirstData([line] + rest, parse) == FirstData(rest, parse)
  {
    assert ([line] + rest)[1..] == rest;
  }

  /** A payload that does not decode is passed over and the scan goes on. */
  lemma UndecodableSkipped<J>(line: string, rest: seq<string>, parse: string -> Option<J>)
    requires parse(Payload(line)).None?
    ensures FirstData([line] + rest, parse) == FirstData(rest, parse)
  {
    assert ([line] + rest)[1..] == rest;
  }

  /** A `data: ` line's payload is everything after the six-character prefix. */
  lemma PayloadAfterPrefix(body: string)
    ensures Payload(DataPrefix + body) == body
  {
    assert (DataPrefix + body)[6..] == body;
  }

  // Result selection

  /** The decoded JSON-RPC response: the error message when there is an
      `error`, and the texts of `result.content` (empty when absent). */
  datatype McpResponse = McpResponse(error: Option<string>, content: seq<string>)

  datatype ToolOutput = ToolOutput(title: string, output: string)

  function NoDocumentation(repo: string): string {
    "No documentation found for " + repo + ". The repository may not be indexed yet or may be private."
  }

  /** The end of `execute`: an error in the response is thrown, otherwise the
      first content text is the output, otherwise a "no documentation"
      message. */
  function SelectOutput(repo: string, data: Option<McpResponse>): Result<ToolOutput, string> {
    if data.Some? && data.value.error.Some? then Err("DeepWiki error: " + data.value.error.value)
    else if data.Some? && |data.value.content| > 0 then Ok(ToolOutput("DeepWiki: " + repo, data.value.content[0]))
    else Ok(ToolOutput("DeepWiki: " + repo, NoDocumentation(repo)))
  }

  /** The tool's answer for a response body. */
  function Answer(repo: string, body: string, parse: string -> Option<McpResponse>): Result<ToolOutput, string> {
    SelectOutput(repo, ParseSSE(body, parse))
  }

  /** The selection: errors exactly for a decoded error, the title names the
      repository otherwise, and the output is the first content text when
      there is one and the "no documentation" message when there is not. */
  lemma SelectOutputSpec(repo: string, data: Option<McpResponse>)
    ensures SelectOutput(repo, data).Err? <==> data.Some? && data.value.error.Some?
    ensures SelectOutput(repo, data).Err? ==> SelectOutput(repo, data).error == "DeepWiki error: " + data.value.error.value
    ensures SelectOutput(repo, data).Ok? ==> SelectOutput(repo, data).value.title == "DeepWiki: " + repo
    ensures data.Some? && data.value.error.None? && |data.value.content| > 0 ==>
      SelectOutput(repo, data).value.output == data.value.content[0]
    ensures data.None? || (data.value.error.None? && data.value.content == []) ==>
      SelectOutput(repo, data).value.output == NoDocumentation(repo)
  {
  }

  /** A body without any accepted line answers with the "no documentation"
      message. */
  lemma NoDataNoDocumentation(repo: string, body: string, parse: string -> Option<McpResponse>)
    requires forall k :: 0 <= k < |Split(body, '\n')| ==> !Accepts(Split(body, '\n')[k], parse)
    ensures Answer(repo, body, parse) == Ok(ToolOutput("DeepWiki: " + repo, NoDocumentation(repo)))
  {
    FirstDataSpec(Split(body, '\n'), parse);
  }
}
