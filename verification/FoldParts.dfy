/**
 What the parts of a turn hold, told from the events alone: each tool part its last call, its last
 result, its last stats and the state of its subagent; each input the question first asked and
 whether it was answered; the error parts the failures in order; each image its last rendition.
 */
module FoldParts {
  import opened Wrappers
  import opened Utf8
  import opened Transcript
  import opened PartsFold
  import opened FoldConservation
  import Hlc

  ghost predicate InTurn(es: seq<Event>) {
    forall e :: e in es ==> !OpensTurn(e)
  }

  /** A run after which a turn opens is as if it had not been. */
  lemma TurnStartsAfresh(ps: seq<Part>, before: seq<Event>, open: Event, turn: seq<Event>)
    requires OpensTurn(open)
    ensures FoldAll(ps, before + ([open] + turn)) == FoldAll([], turn)
  {
    FoldAllConcat(ps, before, [open] + turn);
    assert ([open] + turn)[0] == open && ([open] + turn)[1..] == turn;
  }

  lemma FoldAllSnoc(es: seq<Event>)
    requires es != []
    ensures FoldAll([], es) == Fold(FoldAll([], es[..|es| - 1]), es[|es| - 1])
  {
    var init, e := es[..|es| - 1], es[|es| - 1];
    assert es == init + [e];
    FoldAllConcat([], init, [e]);
    FoldAllOne(FoldAll([], init), e);
  }

  lemma FoldAllOne(ps: seq<Part>, e: Event)
    ensures FoldAll(ps, [e]) == Fold(ps, e)
  {
    assert [e][1..] == [];
    assert FoldAll(Fold(ps, e), []) == Fold(ps, e);
  }

  // ---------------------------------------------------------------------------
  // Tools, told from the events

  predicate Calls(e: Event, id: string) {
    e.ToolCalled? && e.id == id
  }

  /** The call last announced under an id. */
  function LastCall(es: seq<Event>, id: string): Option<ToolCall> {
    if es == [] then None
    else if Calls(es[|es| - 1], id) then Some(es[|es| - 1].call)
    else LastCall(es[..|es| - 1], id)
  }

  /** The error flag of the last result that came after the tool was called. */
  function LastResult(es: seq<Event>, id: string): Option<bool> {
    if es == [] then None
    else
      var init, e := es[..|es| - 1], es[|es| - 1];
      if e.ToolResult? && e.id == id && LastCall(init, id).Some? then Some(e.isError) else LastResult(init, id)
  }

  /** The diff stats last set, or cleared by a result without a diff. */
  function LastStats(es: seq<Event>, id: string): Option<Json> {
    if es == [] then None
    else
      var init, e := es[..|es| - 1], es[|es| - 1];
      if LastCall(init, id).None? then None
      else if e.ToolResult? && e.id == id then e.stats
      else if e.ToolDiffStats? && e.id == id then Some(e.newStats)
      else LastStats(init, id)
  }

  /** Traffic of the subagent that the call under this id spawned. */
  predicate Heard(before: seq<Event>, e: Event, id: string) {
    e.Subagent? && e.parent == id && LastCall(before, id).Some? && LastCall(before, id).value.spawn
  }

  function LastDecisive(es: seq<Event>, id: string): Option<SubagentStatus> {
    if es == [] then None
    else
      var init, e := es[..|es| - 1], es[|es| - 1];
      if !Heard(init, e, id) then LastDecisive(init, id)
      else match e.event
           case Finished(_, errored) => Some(if errored then Failed else Done)
           case UserMessage => Some(Running)
           case Steered => Some(Running)
           case _ => LastDecisive(init, id)
  }

  predicate AnyHeard(es: seq<Event>, id: string) {
    es != [] && (Heard(es[..|es| - 1], es[|es| - 1], id) || AnyHeard(es[..|es| - 1], id))
  }

  /** The last end or assignment heard decides; failing that, any traffic means running. */
  function StatusTold(es: seq<Event>, id: string): Option<SubagentStatus> {
    if LastDecisive(es, id).Some? then LastDecisive(es, id) else if AnyHeard(es, id) then Some(Running) else None
  }

  /** The tool part, as the events tell it. */
  function ToolTold(es: seq<Event>, id: string): Option<Part> {
    if LastCall(es, id).None? then None
    else Some(Tool(id, LastCall(es, id).value, LastResult(es, id) == Some(true), LastResult(es, id).Some?,
                   None, None, None, None, None, LastStats(es, id), None, StatusTold(es, id), None))
  }

  // ---------------------------------------------------------------------------
  // Tools, as the fold keeps them

  function ToolOf(ps: seq<Part>, id: string): Option<Part> {
    if ToolAt(ps, id) < |ps| then Some(ps[ToolAt(ps, id)]) else None
  }

  predicate IsTool(p: Part, id: string) {
    p.Tool? && p.id == id
  }

  lemma {:induction false} ToolAtSame(ps: seq<Part>, qs: seq<Part>, id: string)
    requires |ps| == |qs| && forall i :: 0 <= i < |ps| ==> (IsTool(ps[i], id) <==> IsTool(qs[i], id))
    ensures ToolAt(ps, id) == ToolAt(qs, id)
  {
    if ps != [] { ToolAtSame(ps[1..], qs[1..], id); }
  }

  lemma {:induction false} ToolAtSnoc(ps: seq<Part>, p: Part, id: string)
    ensures ToolOf(ps + [p], id) == if ToolOf(ps, id).Some? then ToolOf(ps, id) else if IsTool(p, id) then Some(p) else None
  {
    if ps == [] {
      assert ps + [p] == [p] && [p][1..] == [];
    } else {
      assert (ps + [p])[1..] == ps[1..] + [p];
      ToolAtSnoc(ps[1..], p, id);
    }
  }

  /** One event's effect on one tool. */
  function ToolStep(t: Option<Part>, e: Event, id: string): Option<Part>
    requires t.Some? ==> t.value.Tool?
  {
    match e
    case ToolCalled(i, call) =>
      if i != id then t else if t.Some? then Some(t.value.(call := call)) else Some(NewTool(id, call))
    case ToolResult(i, isError, stats) => if t.Some? then Some(Resolved(t.value, i, isError, stats)) else None
    case ToolDiffStats(i, stats) => if t.Some? then Some(WithStats(t.value, i, stats)) else None
    case Subagent(parent, event) => if t.Some? then Some(WithSubagent(t.value, parent, StatusOf(event))) else None
    case _ => t
  }

  lemma FoldTool(ps: seq<Part>, e: Event, id: string)
    requires !OpensTurn(e) && (e.GeneratedImage? ==> e.id != id)
    ensures ToolOf(Fold(ps, e), id) == ToolStep(ToolOf(ps, id), e, id)
  {
    var qs := Fold(ps, e);
    if |qs| == |ps| + 1 {
      assert qs == ps + [qs[|ps|]];
      ToolAtSnoc(ps, qs[|ps|], id);
    } else {
      forall i | 0 <= i < |ps| ensures IsTool(ps[i], id) <==> IsTool(qs[i], id) {}
      ToolAtSame(ps, qs, id);
    }
  }

  lemma HeardStep(es: seq<Event>, e: Event, id: string)
    ensures AnyHeard(es + [e], id) <==> Heard(es, e, id) || AnyHeard(es, id)
    ensures LastDecisive(es + [e], id) ==
            if Heard(es, e, id) && StatusOf(e.event).Some? then StatusOf(e.event) else LastDecisive(es, id)
  {
    var all := es + [e];
    assert all[..|all| - 1] == es && all[|all| - 1] == e;
  }

  lemma StatusStep(es: seq<Event>, e: Event, id: string)
    requires ToolTold(es, id).Some?
    ensures var p := ToolTold(es, id).value;
            StatusTold(es + [e], id) == if e.Subagent? then WithSubagent(p, e.parent, StatusOf(e.event)).subagentStatus else p.subagentStatus
  {
    HeardStep(es, e, id);
    var p := ToolTold(es, id).value;
    assert p.call == LastCall(es, id).value && p.subagentStatus == StatusTold(es, id);
    var d := LastDecisive(es, id);
    assert d.Some? ==> d.value == Running || d.value == Done || d.value == Failed;
  }

  lemma ToldStep(es: seq<Event>, e: Event, id: string)
    ensures ToolTold(es + [e], id) == ToolStep(ToolTold(es, id), e, id)
  {
    assert (es + [e])[..|es|] == es;
    if ToolTold(es, id).Some? {
      StatusStep(es, e, id);
    } else {
      NothingBeforeCall(es, id);
    }
  }

  lemma {:induction false} NothingBeforeCall(es: seq<Event>, id: string)
    requires LastCall(es, id).None?
    ensures LastResult(es, id).None? && LastStats(es, id).None? && StatusTold(es, id).None?
  {
    if es != [] { NothingBeforeCall(es[..|es| - 1], id); }
  }

  /** In every turn without an image under a tool's id, the tool has a part exactly if it was called,
      and the part is what the events tell. */
  lemma {:induction false} ToolsAreTold(es: seq<Event>, id: string)
    requires InTurn(es) && forall e :: e in es && e.GeneratedImage? ==> e.id != id
    ensures ToolOf(FoldAll([], es), id) == ToolTold(es, id)
  {
    if es != [] {
      var init, e := es[..|es| - 1], es[|es| - 1];
      assert e in es && es == init + [e];
      ToolsAreTold(init, id);
      FoldAllSnoc(es);
      FoldTool(FoldAll([], init), e, id);
      ToldStep(init, e, id);
    }
  }

  // ---------------------------------------------------------------------------
  // Inputs

  function InputId(request: string): string {
    "in-" + request
  }

  /** The questions first asked under a request. */
  function FirstAsked(es: seq<Event>, request: string): Option<Json> {
    if es == [] then None
    else
      var init, e := es[..|es| - 1], es[|es| - 1];
      if FirstAsked(init, request).Some? then FirstAsked(init, request)
      else if e.InputRequested? && e.requestId == request then Some(e.questions)
      else None
  }

  /** An answer came after the question. */
  predicate AnswerCame(es: seq<Event>, request: string) {
    es != [] &&
    var init, e := es[..|es| - 1], es[|es| - 1];
    AnswerCame(init, request) || (e.InputResolved? && e.requestId == request && FirstAsked(init, request).Some?)
  }

  function InputTold(es: seq<Event>, request: string): Option<Part> {
    if FirstAsked(es, request).None? then None
    else Some(Input(InputId(request), request, FirstAsked(es, request).value, AnswerCame(es, request)))
  }

  predicate IsInput(p: Part, request: string) {
    p.Input? && p.requestId == request
  }

  function InputAt(ps: seq<Part>, request: string): (i: nat)
    ensures i <= |ps|
    ensures i < |ps| ==> IsInput(ps[i], request)
    ensures i == |ps| ==> forall j :: 0 <= j < |ps| ==> !IsInput(ps[j], request)
  {
    if ps == [] || IsInput(ps[0], request) then 0 else 1 + InputAt(ps[1..], request)
  }

  function InputOf(ps: seq<Part>, request: string): Option<Part> {
    if InputAt(ps, request) < |ps| then Some(ps[InputAt(ps, request)]) else None
  }

  /** The id belongs to the parts of this request alone. */
  ghost predicate OwnsId(ps: seq<Part>, request: string) {
    forall p :: p in ps ==> (p.id == InputId(request) <==> IsInput(p, request))
  }

  lemma {:induction false} InputAtSame(ps: seq<Part>, qs: seq<Part>, request: string)
    requires |ps| == |qs| && forall i :: 0 <= i < |ps| ==> (IsInput(ps[i], request) <==> IsInput(qs[i], request))
    ensures InputAt(ps, request) == InputAt(qs, request)
  {
    if ps != [] { InputAtSame(ps[1..], qs[1..], request); }
  }

  lemma {:induction false} InputAtSnoc(ps: seq<Part>, p: Part, request: string)
    ensures InputOf(ps + [p], request) ==
            if InputOf(ps, request).Some? then InputOf(ps, request) else if IsInput(p, request) then Some(p) else None
  {
    if ps == [] {
      assert ps + [p] == [p] && [p][1..] == [];
    } else {
      assert (ps + [p])[1..] == ps[1..] + [p];
      InputAtSnoc(ps[1..], p, request);
    }
  }

  lemma InputIdIsOwn(request: string, other: string, prefix: string, n: nat)
    requires prefix == "t" || prefix == "r" || prefix == "e"
    ensures InputId(request) == InputId(other) ==> request == other
    ensures InputId(request) != Numbered(prefix, n)
  {
    assert InputId(request)[3..] == request && InputId(other)[3..] == other;
    assert InputId(request)[0] == 'i' && Numbered(prefix, n)[0] == prefix[0];
  }

  /** Nothing but the request itself uses its part's id. */
  predicate LeavesIdAlone(e: Event, request: string) {
    (e.GeneratedImage? ==> e.id != InputId(request)) && (e.ToolCalled? ==> e.id != InputId(request))
  }

  lemma NewPartOwns(ps: seq<Part>, e: Event, request: string)
    requires LeavesIdAlone(e, request) && |Fold(ps, e)| == |ps| + 1
    ensures var p := Fold(ps, e)[|ps|]; p.id == InputId(request) <==> IsInput(p, request)
  {
    InputIdIsOwn(request, if e.InputRequested? then e.requestId else request, "t", |ps|);
    InputIdIsOwn(request, request, "r", |ps|);
    InputIdIsOwn(request, request, "e", |ps|);
  }

  /** One event's effect on one request. */
  function InputStep(t: Option<Part>, e: Event, request: string): Option<Part>
    requires t.Some? ==> t.value.Input?
  {
    if t.Some? then Some(if e.InputResolved? then Answered(t.value, e.requestId) else t.value)
    else if e.InputRequested? && e.requestId == request then Some(Input(InputId(request), request, e.questions, false))
    else None
  }

  lemma NewPartInput(ps: seq<Part>, e: Event, request: string)
    requires !OpensTurn(e) && LeavesIdAlone(e, request) && OwnsId(ps, request) && |Fold(ps, e)| == |ps| + 1
    ensures OwnsId(Fold(ps, e), request)
    ensures InputOf(Fold(ps, e), request) == InputStep(InputOf(ps, request), e, request)
  {
    var qs := Fold(ps, e);
    assert qs == ps + [qs[|ps|]];
    NewPartOwns(ps, e, request);
    InputAtSnoc(ps, qs[|ps|], request);
    KnownInput(ps, request);
  }

  lemma InPlaceInput(ps: seq<Part>, e: Event, request: string, i: nat)
    requires !OpensTurn(e) && LeavesIdAlone(e, request) && OwnsId(ps, request) && |Fold(ps, e)| == |ps| && i < |ps|
    ensures var p, q := ps[i], Fold(ps, e)[i];
            && q.id == p.id && (IsInput(p, request) <==> IsInput(q, request))
            && (IsInput(p, request) ==> q == if e.InputResolved? then Answered(p, e.requestId) else p)
  {
    assert ps[i] in ps;
  }

  lemma FoldInput(ps: seq<Part>, e: Event, request: string)
    requires !OpensTurn(e) && LeavesIdAlone(e, request) && OwnsId(ps, request)
    ensures OwnsId(Fold(ps, e), request)
    ensures InputOf(Fold(ps, e), request) == InputStep(InputOf(ps, request), e, request)
  {
    var qs := Fold(ps, e);
    FoldGrowsByOne(ps, e);
    if |qs| == |ps| + 1 {
      NewPartInput(ps, e, request);
    } else {
      forall i | 0 <= i < |ps| ensures qs[i].id == ps[i].id && (IsInput(ps[i], request) <==> IsInput(qs[i], request)) {
        InPlaceInput(ps, e, request, i);
      }
      InputAtSame(ps, qs, request);
      OwnsSame(ps, qs, request);
      KnownInput(ps, request);
      var k := InputAt(ps, request);
      if k < |ps| { InPlaceInput(ps, e, request, k); }
    }
  }

  lemma FoldGrowsByOne(ps: seq<Part>, e: Event)
    requires !OpensTurn(e)
    ensures |Fold(ps, e)| == |ps| || |Fold(ps, e)| == |ps| + 1
  {}

  lemma OwnsSame(ps: seq<Part>, qs: seq<Part>, request: string)
    requires |ps| == |qs| && OwnsId(ps, request)
    requires forall i :: 0 <= i < |ps| ==> qs[i].id == ps[i].id && (IsInput(ps[i], request) <==> IsInput(qs[i], request))
    ensures OwnsId(qs, request)
  {
    forall q | q in qs ensures q.id == InputId(request) <==> IsInput(q, request) {
      var i :| 0 <= i < |qs| && qs[i] == q;
      assert ps[i] in ps;
    }
  }

  /** A request is known exactly when its id is taken. */
  lemma KnownInput(ps: seq<Part>, request: string)
    requires OwnsId(ps, request)
    ensures PartAt(ps, InputId(request)) < |ps| <==> InputOf(ps, request).Some?
  {
    var i, k := PartAt(ps, InputId(request)), InputAt(ps, request);
    if i < |ps| { assert ps[i] in ps; }
    if k < |ps| { assert ps[k] in ps; }
  }

  /** In every turn in which no tool or image uses a request's id, the request has a part exactly if it
      was made: the question first asked, resolved if and only if an answer came after it. */
  lemma {:induction false} InputsAreTold(es: seq<Event>, request: string)
    requires InTurn(es) && forall e :: e in es ==> LeavesIdAlone(e, request)
    ensures OwnsId(FoldAll([], es), request)
    ensures InputOf(FoldAll([], es), request) == InputTold(es, request)
  {
    if es != [] {
      var init, e := es[..|es| - 1], es[|es| - 1];
      assert e in es;
      InputsAreTold(init, request);
      FoldAllSnoc(es);
      FoldInput(FoldAll([], init), e, request);
      AnswerNeedsQuestion(init, request);
    }
  }

  lemma {:induction false} AnswerNeedsQuestion(es: seq<Event>, request: string)
    ensures AnswerCame(es, request) ==> FirstAsked(es, request).Some?
  {
    if es != [] { AnswerNeedsQuestion(es[..|es| - 1], request); }
  }

  // ---------------------------------------------------------------------------
  // Errors

  /** The messages of the error parts, in order. */
  function Messages(ps: seq<Part>): seq<string> {
    if ps == [] then [] else Messages(ps[..|ps| - 1]) + (if ps[|ps| - 1].Error? then [ps[|ps| - 1].message] else [])
  }

  /** The failures reported in a run, in order. */
  function Failures(es: seq<Event>): seq<string> {
    if es == [] then [] else Failures(es[..|es| - 1]) + FailureOf(es[|es| - 1])
  }

  lemma {:induction false} MessagesSame(ps: seq<Part>, qs: seq<Part>)
    requires |ps| == |qs| && forall i :: 0 <= i < |ps| ==> (ps[i].Error? || qs[i].Error? ==> ps[i] == qs[i])
    ensures Messages(ps) == Messages(qs)
  {
    if ps != [] { MessagesSame(ps[..|ps| - 1], qs[..|qs| - 1]); }
  }

  /** Text, reasoning and error parts are named by their kind and place. */
  ghost predicate Placed(ps: seq<Part>) {
    forall i :: 0 <= i < |ps| ==>
      && (ps[i].Text? ==> ps[i].id == Numbered("t", i))
      && (ps[i].Reasoning? ==> ps[i].id == Numbered("r", i))
      && (ps[i].Error? ==> ps[i].id == Numbered("e", i))
  }

  /** Text next to text, or reasoning next to reasoning, is one part. */
  ghost predicate Merged(ps: seq<Part>) {
    forall i, j :: 0 <= i && j == i + 1 && j < |ps| ==> !(ps[i].Text? && ps[j].Text?) && !(ps[i].Reasoning? && ps[j].Reasoning?)
  }

  /** An event that adds no part keeps every part's id and kind, or makes it an image. */
  lemma FoldKeepsKinds(ps: seq<Part>, e: Event, i: nat)
    requires !OpensTurn(e) && |Fold(ps, e)| == |ps| && i < |ps|
    ensures var p, q := ps[i], Fold(ps, e)[i];
            q.Image? || (q.id == p.id && (q.Text? <==> p.Text?) && (q.Reasoning? <==> p.Reasoning?) && (q.Error? <==> p.Error?))
  {}

  lemma FoldKeepsPlaced(ps: seq<Part>, e: Event)
    requires Placed(ps)
    ensures Placed(Fold(ps, e))
  {
    var qs := Fold(ps, e);
    if |qs| == |ps| + 1 {
      assert qs == ps + [qs[|ps|]];
    } else if !OpensTurn(e) {
      forall i | 0 <= i < |ps|
        ensures (qs[i].Text? ==> qs[i].id == Numbered("t", i)) && (qs[i].Reasoning? ==> qs[i].id == Numbered("r", i))
                && (qs[i].Error? ==> qs[i].id == Numbered("e", i))
      {
        FoldKeepsKinds(ps, e, i);
      }
    }
  }

  lemma FoldKeepsMerged(ps: seq<Part>, e: Event)
    requires Merged(ps)
    ensures Merged(Fold(ps, e))
  {
    var qs := Fold(ps, e);
    if |qs| == |ps| + 1 {
      assert qs == ps + [qs[|ps|]];
      MergedSnoc(ps, qs[|ps|]);
    } else if !OpensTurn(e) {
      forall i, j | 0 <= i && j == i + 1 && j < |qs|
        ensures !(qs[i].Text? && qs[j].Text?) && !(qs[i].Reasoning? && qs[j].Reasoning?)
      {
        FoldKeepsKinds(ps, e, i);
        FoldKeepsKinds(ps, e, j);
        assert !(ps[i].Text? && ps[j].Text?) && !(ps[i].Reasoning? && ps[j].Reasoning?);
      }
    }
  }

  lemma MergedSnoc(ps: seq<Part>, p: Part)
    requires Merged(ps)
    requires ps != [] ==> !(ps[|ps| - 1].Text? && p.Text?) && !(ps[|ps| - 1].Reasoning? && p.Reasoning?)
    ensures Merged(ps + [p])
  {
    var qs := ps + [p];
    forall i, j | 0 <= i && j == i + 1 && j < |qs|
      ensures !(qs[i].Text? && qs[j].Text?) && !(qs[i].Reasoning? && qs[j].Reasoning?)
    {
      if j < |ps| { assert qs[i] == ps[i] && qs[j] == ps[j]; }
    }
  }

  /** In every run: parts are named by their place, and a streamed text is broken only by another part. */
  lemma {:induction false} RunKeepsShape(es: seq<Event>)
    ensures Placed(FoldAll([], es)) && Merged(FoldAll([], es))
  {
    if es != [] {
      RunKeepsShape(es[..|es| - 1]);
      FoldAllSnoc(es);
      FoldKeepsPlaced(FoldAll([], es[..|es| - 1]), es[|es| - 1]);
      FoldKeepsMerged(FoldAll([], es[..|es| - 1]), es[|es| - 1]);
    }
  }

  ghost predicate Spoken(ps: seq<Part>) {
    forall i :: 0 <= i < |ps| && ps[i].Reasoning? ==> ps[i].text != []
  }

  lemma FoldKeepsSpoken(ps: seq<Part>, e: Event)
    requires Spoken(ps)
    ensures Spoken(Fold(ps, e))
  {
    var qs := Fold(ps, e);
    if |qs| == |ps| + 1 {
      assert qs == ps + [qs[|ps|]];
    } else if !OpensTurn(e) {
      forall i | 0 <= i < |ps| && qs[i].Reasoning? ensures qs[i].text != [] {
        ReasoningStays(ps, e, i);
      }
    }
  }

  lemma ReasoningStays(ps: seq<Part>, e: Event, i: nat)
    requires !OpensTurn(e) && |Fold(ps, e)| == |ps| && i < |ps| && Fold(ps, e)[i].Reasoning?
    ensures ps[i].Reasoning? && |ps[i].text| <= |Fold(ps, e)[i].text|
  {}

  /** In every run: empty reasoning deltas leave no part behind. */
  lemma {:induction false} NoEmptyReasoning(es: seq<Event>)
    ensures Spoken(FoldAll([], es))
  {
    if es != [] {
      NoEmptyReasoning(es[..|es| - 1]);
      FoldAllSnoc(es);
      FoldKeepsSpoken(FoldAll([], es[..|es| - 1]), es[|es| - 1]);
    }
  }

  lemma NumberedDiffer(p: string, m: nat, q: string, n: nat)
    requires |p| == |q| == 1 && (m != n || p != q)
    ensures Numbered(p, m) != Numbered(q, n)
  {
    Hlc.ValueOfDecimal(m);
    Hlc.ValueOfDecimal(n);
    var a, b := Numbered(p, m), Numbered(q, n);
    assert a[..1] == p && b[..1] == q && a[1..] == Hlc.Decimal(m) && b[1..] == Hlc.Decimal(n);
  }

  /** So in every run no two text or reasoning parts share an id. */
  lemma TextIdsAreUnique(es: seq<Event>, i: nat, j: nat)
    requires i < j < |FoldAll([], es)| && TextBodied(FoldAll([], es)[i]) && TextBodied(FoldAll([], es)[j])
    ensures FoldAll([], es)[i].id != FoldAll([], es)[j].id
  {
    var ps := FoldAll([], es);
    RunKeepsShape(es);
    NumberedDiffer(if ps[i].Text? then "t" else "r", i, if ps[j].Text? then "t" else "r", j);
  }

  predicate SparesErrors(e: Event, n: nat) {
    e.GeneratedImage? ==> e.id != Numbered("e", n)
  }

  lemma ErrorsStay(ps: seq<Part>, e: Event, i: nat)
    requires !OpensTurn(e) && |Fold(ps, e)| == |ps| && i < |ps|
    requires (ps[i].Error? ==> ps[i].id == Numbered("e", i)) && SparesErrors(e, i)
    ensures ps[i].Error? || Fold(ps, e)[i].Error? ==> ps[i] == Fold(ps, e)[i]
  {}

  lemma MessagesSnoc(ps: seq<Part>, p: Part)
    ensures Messages(ps + [p]) == Messages(ps) + (if p.Error? then [p.message] else [])
  {
    assert (ps + [p])[..|ps|] == ps;
  }

  /** The failure an event reports. */
  function FailureOf(e: Event): seq<string> {
    match e
    case Failure(message) => [message]
    case Finished(error, _) => if error.Some? then [error.value] else []
    case _ => []
  }

  lemma NewPartError(ps: seq<Part>, e: Event)
    requires !OpensTurn(e) && |Fold(ps, e)| == |ps| + 1
    ensures var p := Fold(ps, e)[|ps|];
            Fold(ps, e) == ps + [p] && FailureOf(e) == if p.Error? then [p.message] else []
  {
    assert Fold(ps, e) == ps + [Fold(ps, e)[|ps|]];
  }

  lemma FoldErrors(ps: seq<Part>, e: Event)
    requires Placed(ps) && !OpensTurn(e) && forall n: nat :: SparesErrors(e, n)
    ensures Messages(Fold(ps, e)) == Messages(ps) + FailureOf(e)
  {
    var qs := Fold(ps, e);
    FoldGrowsByOne(ps, e);
    if |qs| == |ps| + 1 {
      NewPartError(ps, e);
      MessagesSnoc(ps, qs[|ps|]);
    } else {
      forall i | 0 <= i < |ps| ensures ps[i].Error? || qs[i].Error? ==> ps[i] == qs[i] { ErrorsStay(ps, e, i); }
      MessagesSame(ps, qs);
      FailuresAddParts(ps, e);
    }
  }

  lemma FailuresAddParts(ps: seq<Part>, e: Event)
    requires !OpensTurn(e) && |Fold(ps, e)| == |ps|
    ensures FailureOf(e) == []
  {}

  /** In every turn in which no image takes an error's id, there is one error part for each failure, in
      order, with its message. */
  lemma {:induction false} ErrorsAreTold(es: seq<Event>)
    requires InTurn(es) && forall e, n: nat :: e in es ==> SparesErrors(e, n)
    ensures Messages(FoldAll([], es)) == Failures(es)
  {
    if es != [] {
      var init, e := es[..|es| - 1], es[|es| - 1];
      assert e in es;
      ErrorsAreTold(init);
      RunKeepsShape(init);
      FoldAllSnoc(es);
      FoldErrors(FoldAll([], init), e);
    }
  }

  // ---------------------------------------------------------------------------
  // Images

  /** The image last generated under an id. */
  function LastImage(es: seq<Event>, id: string): Option<Part> {
    if es == [] then None
    else
      var e := es[|es| - 1];
      if e.GeneratedImage? && e.id == id then Some(Image(id, e.path, e.name, e.mimeType)) else LastImage(es[..|es| - 1], id)
  }

  lemma {:induction false} PartAtSame(ps: seq<Part>, qs: seq<Part>, id: string)
    requires |ps| <= |qs| && forall i :: 0 <= i < |ps| ==> ps[i].id == qs[i].id
    requires PartAt(ps, id) < |ps|
    ensures PartAt(qs, id) == PartAt(ps, id)
  {
    if ps[0].id != id {
      forall i | 0 <= i < |ps[1..]| ensures ps[1..][i].id == qs[1..][i].id { assert ps[i + 1].id == qs[i + 1].id; }
      PartAtSame(ps[1..], qs[1..], id);
    }
  }

  /** The first part under an image's id is the image last generated. */
  ghost predicate ShowsLast(ps: seq<Part>, es: seq<Event>, id: string) {
    LastImage(es, id).Some? ==> PartAt(ps, id) < |ps| && ps[PartAt(ps, id)] == LastImage(es, id).value
  }

  lemma FoldKeepsIds(ps: seq<Part>, e: Event)
    requires !OpensTurn(e)
    ensures var qs := Fold(ps, e); |ps| <= |qs| && forall i :: 0 <= i < |ps| ==> ps[i].id == qs[i].id
  {}

  lemma FoldKeepsImages(ps: seq<Part>, e: Event, i: nat)
    requires !OpensTurn(e) && i < |ps| && ps[i].Image?
    ensures var q := Fold(ps, e)[i]; q == ps[i] || (e.GeneratedImage? && e.id == ps[i].id && q == Image(e.id, e.path, e.name, e.mimeType))
  {}

  lemma ImageShown(ps: seq<Part>, e: Event)
    requires e.GeneratedImage?
    ensures var qs := Fold(ps, e); PartAt(qs, e.id) < |qs| && qs[PartAt(qs, e.id)] == Image(e.id, e.path, e.name, e.mimeType)
  {
    var qs, i := Fold(ps, e), PartAt(ps, e.id);
    if i < |ps| {
      FoldKeepsIds(ps, e);
      PartAtSame(ps, qs, e.id);
    } else {
      NotAt(ps, qs, e.id);
    }
  }

  lemma {:induction false} NotAt(ps: seq<Part>, qs: seq<Part>, id: string)
    requires PartAt(ps, id) == |ps| && |qs| == |ps| + 1 && qs[..|ps|] == ps && qs[|ps|].id == id
    ensures PartAt(qs, id) == |ps|
  {
    if ps != [] {
      assert qs[0] == ps[0] && qs[1..][..|ps| - 1] == ps[1..];
      NotAt(ps[1..], qs[1..], id);
    }
  }

  /** In every turn, an image generated is shown as it was last generated, where its id first stands. */
  lemma {:induction false} ImagesAreTold(es: seq<Event>, id: string)
    requires InTurn(es)
    ensures ShowsLast(FoldAll([], es), es, id)
  {
    if es != [] {
      var init, e := es[..|es| - 1], es[|es| - 1];
      assert e in es;
      var ps := FoldAll([], init);
      ImagesAreTold(init, id);
      FoldAllSnoc(es);
      if e.GeneratedImage? && e.id == id {
        ImageShown(ps, e);
      } else if LastImage(init, id).Some? {
        LastImageId(init, id);
        FoldKeepsIds(ps, e);
        PartAtSame(ps, Fold(ps, e), id);
        FoldKeepsImages(ps, e, PartAt(ps, id));
      }
    }
  }

  lemma {:induction false} LastImageId(es: seq<Event>, id: string)
    ensures LastImage(es, id).Some? ==> LastImage(es, id).value.Image? && LastImage(es, id).value.id == id
  {
    if es != [] { LastImageId(es[..|es| - 1], id); }
  }

  /** And every image part comes from an image generated. */
  lemma {:induction false} ImagesComeFromEvents(es: seq<Event>, p: Part)
    requires InTurn(es) && p in FoldAll([], es) && p.Image?
    ensures exists e :: e in es && e == GeneratedImage(p.id, p.path, p.name, p.mimeType)
  {
    var init, e := es[..|es| - 1], es[|es| - 1];
    assert e in es;
    FoldAllSnoc(es);
    var ps := FoldAll([], init);
    if p in ps {
      ImagesComeFromEvents(init, p);
      var x :| x in init && x == GeneratedImage(p.id, p.path, p.name, p.mimeType);
      assert x in es;
    } else {
      NewImageIsEvents(ps, e, p);
    }
  }

  lemma NewImageIsEvents(ps: seq<Part>, e: Event, p: Part)
    requires !OpensTurn(e) && p in Fold(ps, e) && p !in ps && p.Image?
    ensures e == GeneratedImage(p.id, p.path, p.name, p.mimeType)
  {
    var i :| 0 <= i < |Fold(ps, e)| && Fold(ps, e)[i] == p;
    if i < |ps| { assert ps[i] in ps; }
  }
}
