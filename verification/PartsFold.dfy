/**
 The fold of agent events into the parts of the live assistant message.
 */
module PartsFold {
  import opened Wrappers
  import opened Utf8
  import opened Transcript
  import Hlc

  datatype Event =
    | SessionStarted
    | Steered
    | TextDelta(text: Bytes)
    | GeneratedImage(id: string, path: string, name: string, mimeType: string)
    | ReasoningDelta(text: Bytes)
    | ToolCalled(id: string, call: ToolCall)
    | ToolResult(id: string, isError: bool, stats: Option<Json>)      // the stats of the diff it carried, if any
    | ToolDiffStats(id: string, newStats: Json)
    | InputRequested(requestId: string, questions: Json)
    | InputResolved(requestId: string)
    | Failure(message: string)
    | Finished(error: Option<string>, errored: bool)
    | UserMessage
    | Subagent(parent: string, event: Event)
    | Housekeeping                                                   // usage, commands, goals: never a part

  function Numbered(prefix: string, n: nat): string {
    prefix + Hlc.Decimal(n)
  }

  /** First part with this id, or the length. */
  function PartAt(ps: seq<Part>, id: string): (i: nat)
    ensures i <= |ps|
    ensures i < |ps| ==> ps[i].id == id
    ensures i == |ps| ==> forall j :: 0 <= j < |ps| ==> ps[j].id != id
  {
    if ps == [] || ps[0].id == id then 0 else 1 + PartAt(ps[1..], id)
  }

  function ToolAt(ps: seq<Part>, id: string): (i: nat)
    ensures i <= |ps|
    ensures i < |ps| ==> ps[i].Tool? && ps[i].id == id
  {
    if ps == [] || (ps[0].Tool? && ps[0].id == id) then 0 else 1 + ToolAt(ps[1..], id)
  }

  function NewTool(id: string, call: ToolCall): Part {
    Tool(id, call, false, false, None, None, None, None, None, None, None, None, None)
  }

  // The in-place updates, part by part.

  function Resolved(p: Part, id: string, isError: bool, stats: Option<Json>): Part {
    if p.Tool? && p.id == id
    then p.(isError := isError, resolved := true, output := None, outputBytes := None, diff := None, diffStats := stats)
    else p
  }

  function WithStats(p: Part, id: string, stats: Json): Part {
    if p.Tool? && p.id == id then p.(diffStats := Some(stats)) else p
  }

  function Answered(p: Part, requestId: string): Part {
    if p.Input? && p.requestId == requestId then p.(inputResolved := true) else p
  }

  /** What tagged traffic says about a subagent: settled, reopened, or merely alive. */
  function StatusOf(e: Event): Option<SubagentStatus> {
    match e
    case Finished(_, errored) => Some(if errored then Failed else Done)
    case UserMessage => Some(Running)
    case Steered => Some(Running)
    case _ => None
  }

  function WithSubagent(p: Part, parent: string, status: Option<SubagentStatus>): Part {
    if p.Tool? && p.id == parent && p.call.spawn then
      if status.Some? then p.(subagentStatus := status)
      else if p.subagentStatus == Some(Done) || p.subagentStatus == Some(Failed) then p
      else p.(subagentStatus := Some(Running))
    else p
  }

  function Each(ps: seq<Part>, f: Part -> Part): seq<Part> {
    seq(|ps|, i requires 0 <= i < |ps| => f(ps[i]))
  }

  function Fold(ps: seq<Part>, e: Event): seq<Part> {
    match e
    case SessionStarted => []
    case Steered => []
    case TextDelta(text) =>
      if ps != [] && ps[|ps| - 1].Text?
      then ps[|ps| - 1 := ps[|ps| - 1].(text := ps[|ps| - 1].text + text)]
      else ps + [Text(Numbered("t", |ps|), text)]
    case GeneratedImage(id, path, name, mimeType) =>
      var image := Image(id, path, name, mimeType);
      var i := PartAt(ps, id);
      if i < |ps| then ps[i := image] else ps + [image]
    case ReasoningDelta(text) =>
      if text == [] then ps
      else if ps != [] && ps[|ps| - 1].Reasoning?
      then ps[|ps| - 1 := ps[|ps| - 1].(text := ps[|ps| - 1].text + text)]
      else ps + [Reasoning(Numbered("r", |ps|), text)]
    case ToolCalled(id, call) =>
      var i := ToolAt(ps, id);
      if i < |ps| then ps[i := ps[i].(call := call)] else ps + [NewTool(id, call)]
    case ToolResult(id, isError, stats) => Each(ps, p => Resolved(p, id, isError, stats))
    case ToolDiffStats(id, stats) => Each(ps, p => WithStats(p, id, stats))
    case InputRequested(requestId, questions) =>
      var id := "in-" + requestId;
      if PartAt(ps, id) < |ps| then ps else ps + [Input(id, requestId, questions, false)]
    case InputResolved(requestId) => Each(ps, p => Answered(p, requestId))
    case Failure(message) => ps + [Error(Numbered("e", |ps|), message)]
    case Finished(error, _) => if error.Some? then ps + [Error(Numbered("e", |ps|), error.value)] else ps
    case UserMessage => ps
    case Subagent(parent, event) => Each(ps, p => WithSubagent(p, parent, StatusOf(event)))
    case Housekeeping => ps
  }

  function FoldAll(ps: seq<Part>, es: seq<Event>): seq<Part>
    decreases |es|
  {
    if es == [] then ps else FoldAll(Fold(ps, es[0]), es[1..])
  }

  lemma {:induction false} FoldAllConcat(ps: seq<Part>, a: seq<Event>, b: seq<Event>)
    ensures FoldAll(ps, a + b) == FoldAll(FoldAll(ps, a), b)
    decreases |a|
  {
    if a == [] {
      assert a + b == b;
    } else {
      assert (a + b)[0] == a[0] && (a + b)[1..] == a[1..] + b;
      FoldAllConcat(Fold(ps, a[0]), a[1..], b);
    }
  }

  /** The accumulator the engine folds into, in place. */
  class Accumulator {
    var parts: seq<Part>

    constructor ()
      ensures parts == []
    {
      parts := [];
    }

    method Update(f: Part -> Part)
      modifies this
      ensures parts == Each(old(parts), f)
    {
      var i := 0;
      while i < |parts|
        invariant 0 <= i <= |parts| == |old(parts)|
        invariant forall j :: 0 <= j < |parts| ==> parts[j] == if j < i then f(old(parts)[j]) else old(parts)[j]
      {
        parts := parts[i := f(parts[i])];
        i := i + 1;
      }
    }

    method FoldEvent(e: Event)
      modifies this
      ensures parts == Fold(old(parts), e)
    {
      match e
      case SessionStarted => parts := [];
      case Steered => parts := [];
      case TextDelta(text) =>
        if |parts| > 0 && parts[|parts| - 1].Text? {
          parts := parts[|parts| - 1 := parts[|parts| - 1].(text := parts[|parts| - 1].text + text)];
        } else {
          parts := parts + [Text(Numbered("t", |parts|), text)];
        }
      case GeneratedImage(id, path, name, mimeType) =>
        var i := PartAt(parts, id);
        if i < |parts| {
          parts := parts[i := Image(id, path, name, mimeType)];
        } else {
          parts := parts + [Image(id, path, name, mimeType)];
        }
      case ReasoningDelta(text) =>
        if |text| > 0 {
          if |parts| > 0 && parts[|parts| - 1].Reasoning? {
            parts := parts[|parts| - 1 := parts[|parts| - 1].(text := parts[|parts| - 1].text + text)];
          } else {
            parts := parts + [Reasoning(Numbered("r", |parts|), text)];
          }
        }
      case ToolCalled(id, call) =>
        var i := ToolAt(parts, id);
        if i < |parts| {
          parts := parts[i := parts[i].(call := call)];
        } else {
          parts := parts + [NewTool(id, call)];
        }
      case ToolResult(id, isError, stats) => Update(p => Resolved(p, id, isError, stats));
      case ToolDiffStats(id, stats) => Update(p => WithStats(p, id, stats));
      case InputRequested(requestId, questions) =>
        if PartAt(parts, "in-" + requestId) == |parts| {
          parts := parts + [Input("in-" + requestId, requestId, questions, false)];
        }
      case InputResolved(requestId) => Update(p => Answered(p, requestId));
      case Failure(message) => parts := parts + [Error(Numbered("e", |parts|), message)];
      case Finished(error, _) =>
        if error.Some? { parts := parts + [Error(Numbered("e", |parts|), error.value)]; }
      case UserMessage =>
      case Subagent(parent, event) => Update(p => WithSubagent(p, parent, StatusOf(event)));
      case Housekeeping =>
    }
  }
}
