/**
 Transcript data: message parts and message entries.
 */
module Transcript {
  import opened Wrappers
  import opened Utf8

  /** A JSON value, kept as its text. */
  type Json = string

  datatype SubagentStatus = Running | Done | Failed

  /** A tool call; `spawn` marks the call of a subagent. */
  datatype ToolCall = ToolCall(json: Json, spawn: bool)

  datatype Part =
    | Text(id: string, text: Bytes)
    | Image(id: string, path: string, name: string, mimeType: string)
    | Reasoning(id: string, text: Bytes)
    | Tool(id: string, call: ToolCall, isError: bool, resolved: bool, output: Option<string>,
           diff: Option<Json>, outputRef: Option<string>, outputBytes: Option<nat>, diffRef: Option<string>,
           diffStats: Option<Json>, subagentRef: Option<string>, subagentStatus: Option<SubagentStatus>,
           subagentTail: Option<string>)
    | Input(id: string, requestId: string, questions: Json, inputResolved: bool)
    | Error(id: string, message: string)

  /** Parts whose body is text: prose and reasoning. */
  predicate TextBodied(p: Part) {
    p.Text? || p.Reasoning?
  }

  datatype Stream = Prose | Thought

  /** The bytes a part carries of one stream. */
  function StreamBody(p: Part, s: Stream): Bytes {
    if (s.Prose? && p.Text?) || (s.Thought? && p.Reasoning?) then p.text else []
  }

  /** All the prose, or all the reasoning, of a message. */
  function StreamOf(ps: seq<Part>, s: Stream): Bytes {
    if ps == [] then [] else StreamBody(ps[0], s) + StreamOf(ps[1..], s)
  }

  lemma {:induction false} StreamConcat(a: seq<Part>, b: seq<Part>, s: Stream)
    ensures StreamOf(a + b, s) == StreamOf(a, s) + StreamOf(b, s)
  {
    if a == [] {
      assert a + b == b;
    } else {
      assert (a + b)[0] == a[0] && (a + b)[1..] == a[1..] + b;
      StreamConcat(a[1..], b, s);
    }
  }

  datatype Role = User | Assistant | System

  datatype Status = Streaming | Complete | Aborted

  datatype Entry = Entry(id: string, role: Role, parts: seq<Part>, createdAt: int, deviceId: string,
                         status: Option<Status>, continuationOf: Option<string>, durationMs: Option<int>)
}
