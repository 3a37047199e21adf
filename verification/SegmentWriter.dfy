/**
 The streaming writer: at each commit tick it writes the difference between the folded parts and
 what it wrote before into the document's part list.  The document read back is the fold.
 */
module SegmentWriter {
  import opened Wrappers
  import opened Utf8
  import opened Transcript
  import opened PartsFold

  /** The flat part map of the document: every field but id and kind may be absent. */
  datatype DocPart = DocPart(
    id: string, kind: string,
    path: Option<string>, name: Option<string>, mimeType: Option<string>,
    text: Option<Bytes>, reasoning: Option<Bytes>,
    call: Option<ToolCall>, isError: Option<bool>,
    questions: Option<Json>, resolved: Option<bool>, message: Option<string>,
    output: Option<string>, diff: Option<Json>, outputRef: Option<string>, outputBytes: Option<nat>,
    diffRef: Option<string>, diffStats: Option<Json>,
    subagentRef: Option<string>, subagentStatus: Option<string>, subagentTail: Option<string>)

  function Blank(id: string, kind: string): DocPart {
    DocPart(id, kind, None, None, None, None, None, None, None, None, None, None, None, None, None, None, None, None, None, None, None)
  }

  function StatusName(s: SubagentStatus): string {
    match s
    case Running => "running"
    case Done => "done"
    case Failed => "failed"
  }

  function StatusNamed(s: string): Option<SubagentStatus> {
    if s == "running" then Some(Running) else if s == "done" then Some(Done) else if s == "failed" then Some(Failed) else None
  }

  function ToDoc(p: Part): DocPart {
    match p
    case Image(id, path, name, mimeType) =>
      Blank(id, "image").(path := Some(path), name := Some(name), mimeType := Some(mimeType))
    case Text(id, text) => Blank(id, "text").(text := Some(text))
    case Reasoning(id, text) => Blank(id, "reasoning").(reasoning := Some(text))
    case Tool(id, call, isError, resolved, output, diff, outputRef, outputBytes, diffRef, diffStats, ref, status, tail) =>
      Blank(id, "tool").(
        call := Some(call),
        isError := if resolved then Some(isError) else None,
        output := output, diff := diff, outputRef := outputRef, outputBytes := outputBytes,
        diffRef := diffRef, diffStats := diffStats, subagentRef := ref,
        subagentStatus := if status.Some? then Some(StatusName(status.value)) else None,
        subagentTail := tail)
    case Input(_, requestId, questions, resolved) =>
      Blank(requestId, "input").(questions := Some(questions), resolved := Some(resolved))
    case Error(id, message) => Blank(id, "error").(message := Some(message))
  }

  const UNAVAILABLE := "Generated image unavailable"

  predicate ValidImage(path: string, name: string, mimeType: string) {
    path != "" && name != "" && mimeType in {"image/png", "image/jpeg", "image/webp", "image/gif"}
  }

  function FromDoc(d: DocPart): Part {
    if d.kind == "image" then
      if d.path.Some? && d.name.Some? && d.mimeType.Some? && ValidImage(d.path.value, d.name.value, d.mimeType.value)
      then Image(d.id, d.path.value, d.name.value, d.mimeType.value)
      else Error(d.id, UNAVAILABLE)
    else if d.kind == "tool" then
      if d.call.Some? then
        Tool(d.id, d.call.value, d.isError == Some(true), d.isError.Some?, d.output, d.diff, d.outputRef, d.outputBytes,
             d.diffRef, d.diffStats, d.subagentRef,
             if d.subagentStatus.Some? then StatusNamed(d.subagentStatus.value) else None, d.subagentTail)
      else Text(d.id, [])
    else if d.kind == "input" then
      Input(d.id, d.id, if d.questions.Some? then d.questions.value else "[]", d.resolved == Some(true))
    else if d.kind == "error" then Error(d.id, if d.message.Some? then d.message.value else "")
    else if d.kind == "reasoning" then Reasoning(d.id, if d.reasoning.Some? then d.reasoning.value else [])
    else Text(d.id, if d.text.Some? then d.text.value else [])
  }

  /** A part as any reader sees it. */
  function Normal(p: Part): Part {
    FromDoc(ToDoc(p))
  }

  /** Reading back changes a part only in these three ways. */
  lemma NormalForm(p: Part)
    ensures match p
            case Input(_, requestId, questions, resolved) => Normal(p) == Input(requestId, requestId, questions, resolved)
            case Image(id, path, name, mimeType) => Normal(p) == if ValidImage(path, name, mimeType) then p else Error(id, UNAVAILABLE)
            case Tool(_, _, _, resolved, _, _, _, _, _, _, _, _, _) => Normal(p) == if resolved then p else p.(isError := false)
            case _ => Normal(p) == p
    ensures Normal(Normal(p)) == Normal(p)
  {}

  // ---------------------------------------------------------------------------
  // Writing one part

  function Or<T>(new_: Option<T>, old_: Option<T>): Option<T> {
    if new_.Some? then new_ else old_
  }

  /** Field refresh: present fields are written, absent ones are left; id and kind never change, and
      a text body is rewritten only where the map already has one. */
  function Refresh(d: DocPart, n: DocPart): DocPart {
    DocPart(d.id, d.kind,
      Or(n.path, d.path), Or(n.name, d.name), Or(n.mimeType, d.mimeType),
      if d.text.Some? then Or(n.text, d.text) else None,
      if d.reasoning.Some? then Or(n.reasoning, d.reasoning) else None,
      Or(n.call, d.call), Or(n.isError, d.isError),
      Or(n.questions, d.questions), Or(n.resolved, d.resolved), Or(n.message, d.message),
      Or(n.output, d.output), Or(n.diff, d.diff), Or(n.outputRef, d.outputRef), Or(n.outputBytes, d.outputBytes),
      Or(n.diffRef, d.diffRef), Or(n.diffStats, d.diffStats),
      Or(n.subagentRef, d.subagentRef), Or(n.subagentStatus, d.subagentStatus), Or(n.subagentTail, d.subagentTail))
  }

  /** Both are the same kind of text body and the new one continues the old one. */
  predicate GrowsText(w: Part, p: Part) {
    ((w.Text? && p.Text?) || (w.Reasoning? && p.Reasoning?)) && w.text <= p.text
  }

  /** One part of one tick, where `w` was written as `d`; `None` is a schema error. */
  function WritePart(w: Part, d: DocPart, p: Part): Option<DocPart> {
    if w == p then Some(d)
    else if GrowsText(w, p) then
      var delta := p.text[|w.text|..];
      if delta == [] then Some(d)
      else if p.Text? then (if d.text.Some? then Some(d.(text := Some(d.text.value + delta))) else None)
      else (if d.reasoning.Some? then Some(d.(reasoning := Some(d.reasoning.value + delta))) else None)
    else Some(Refresh(d, ToDoc(p)))
  }

  predicate SameKind(w: Part, p: Part) {
    ToDoc(w).kind == ToDoc(p).kind
  }

  predicate Persists<T>(w: Option<T>, p: Option<T>) {
    w.Some? ==> p.Some?
  }

  /** The change from `w` to `p` is one the writer can express: same kind, same document id, and no
      field that was present becomes absent. */
  predicate Refreshes(w: Part, p: Part) {
    && SameKind(w, p) && ToDoc(w).id == ToDoc(p).id
    && (w.Tool? && p.Tool? ==>
          && (w.resolved ==> p.resolved)
          && Persists(w.output, p.output) && Persists(w.diff, p.diff) && Persists(w.outputRef, p.outputRef)
          && Persists(w.outputBytes, p.outputBytes) && Persists(w.diffRef, p.diffRef) && Persists(w.diffStats, p.diffStats)
          && Persists(w.subagentRef, p.subagentRef) && Persists(w.subagentStatus, p.subagentStatus)
          && Persists(w.subagentTail, p.subagentTail))
  }

  lemma KindNames(w: Part, p: Part)
    ensures SameKind(w, p) <==>
            (w.Text? <==> p.Text?) && (w.Image? <==> p.Image?) && (w.Reasoning? <==> p.Reasoning?) &&
            (w.Tool? <==> p.Tool?) && (w.Input? <==> p.Input?) && (w.Error? <==> p.Error?)
  {}

  /** A part the writer can express is written exactly. */
  lemma WriteExact(w: Part, p: Part)
    requires Refreshes(w, p)
    ensures WritePart(w, ToDoc(w), p) == Some(ToDoc(p))
  {
    KindNames(w, p);
    if GrowsText(w, p) {
      assert w.text + p.text[|w.text|..] == p.text;
      if p.text[|w.text|..] == [] { assert w.text == p.text; }
    }
  }

  /** A part that every reader sees as an unavailable image. */
  predicate Unavailable(p: Part) {
    (p.Image? && !ValidImage(p.path, p.name, p.mimeType)) || (p.Error? && p.message == UNAVAILABLE)
  }

  /** The document will show `p` over `w`: the change is expressible, or both read as the same
      unavailable image. */
  predicate ShowsThrough(w: Part, p: Part) {
    Refreshes(w, p) || (Unavailable(w) && Unavailable(p) && w.id == p.id)
  }

  lemma SameKindReadsBack(w: Part, p: Part)
    requires SameKind(w, p)
    ensures WritePart(w, ToDoc(w), p).Some?
    ensures FromDoc(WritePart(w, ToDoc(w), p).value) == Normal(p) <==> Refreshes(w, p)
  {
    KindNames(w, p);
    if Refreshes(w, p) {
      WriteExact(w, p);
    } else if GrowsText(w, p) {
      assert w.text + p.text[|w.text|..] == p.text;
    }
  }

  /** Across kinds the document keeps showing what it showed. */
  lemma OtherKindStays(w: Part, p: Part)
    requires !SameKind(w, p)
    ensures WritePart(w, ToDoc(w), p).Some?
    ensures FromDoc(WritePart(w, ToDoc(w), p).value) == Normal(w)
  {
    KindNames(w, p);
  }

  /** Whatever the two parts are, the document shows the new one if and only if it shows through. */
  lemma WriteReadsBack(w: Part, p: Part)
    ensures WritePart(w, ToDoc(w), p).Some?
    ensures FromDoc(WritePart(w, ToDoc(w), p).value) == Normal(p) <==> ShowsThrough(w, p)
  {
    KindNames(w, p);
    NormalForm(w);
    NormalForm(p);
    if SameKind(w, p) { SameKindReadsBack(w, p); } else { OtherKindStays(w, p); }
  }

  // ---------------------------------------------------------------------------
  // Ticks

  function Docs(ps: seq<Part>): seq<DocPart> {
    seq(|ps|, i requires 0 <= i < |ps| => ToDoc(ps[i]))
  }

  function Read(ds: seq<DocPart>): seq<Part> {
    seq(|ds|, i requires 0 <= i < |ds| => FromDoc(ds[i]))
  }

  function NormalAll(ps: seq<Part>): seq<Part> {
    seq(|ps|, i requires 0 <= i < |ps| => Normal(ps[i]))
  }

  /** The fold only appends parts and refreshes earlier ones expressibly. */
  predicate Extends(ws: seq<Part>, ps: seq<Part>) {
    |ws| <= |ps| && forall i :: 0 <= i < |ws| ==> Refreshes(ws[i], ps[i])
  }

  /** Every refreshed part can be written. */
  predicate Writable(ws: seq<Part>, ds: seq<DocPart>, ps: seq<Part>)
    requires |ws| == |ds|
  {
    forall i :: 0 <= i < |ps| && i < |ws| ==> WritePart(ws[i], ds[i], ps[i]).Some?
  }

  /** The document and the mirror after one tick. */
  function SyncDoc(ws: seq<Part>, ds: seq<DocPart>, ps: seq<Part>): seq<DocPart>
    requires |ws| == |ds| && Writable(ws, ds, ps)
  {
    seq(if |ps| > |ds| then |ps| else |ds|, i requires 0 <= i < |ps| || 0 <= i < |ds| =>
      if i >= |ps| then ds[i] else if i < |ws| then WritePart(ws[i], ds[i], ps[i]).value else ToDoc(ps[i]))
  }

  function SyncMirror(ws: seq<Part>, ps: seq<Part>): seq<Part> {
    if |ps| < |ws| then ps + ws[|ps|..] else ps
  }

  /** The tick stopped at part `i`, with the parts before it written. */
  ghost predicate StoppedAt(ws: seq<Part>, ds: seq<DocPart>, ps: seq<Part>, i: nat, doc: seq<DocPart>, mirror: seq<Part>)
    requires |ws| == |ds|
  {
    && i < |ps| && i < |ws| && WritePart(ws[i], ds[i], ps[i]).None?
    && Writable(ws, ds, ps[..i]) && doc == SyncDoc(ws, ds, ps[..i]) && mirror == SyncMirror(ws, ps[..i])
  }

  lemma WritableStep(ws: seq<Part>, ds: seq<DocPart>, ps: seq<Part>, i: nat)
    requires |ws| == |ds| && i < |ps| && Writable(ws, ds, ps[..i])
    ensures Writable(ws, ds, ps[..i + 1]) <==> (i < |ws| ==> WritePart(ws[i], ds[i], ps[i]).Some?)
  {}

  lemma SyncDocStep(ws: seq<Part>, ds: seq<DocPart>, ps: seq<Part>, i: nat)
    requires |ws| == |ds| && i < |ps| && Writable(ws, ds, ps[..i]) && Writable(ws, ds, ps[..i + 1])
    ensures var d, next := SyncDoc(ws, ds, ps[..i]), SyncDoc(ws, ds, ps[..i + 1]);
            if i < |ws| then next == d[i := WritePart(ws[i], ds[i], ps[i]).value] else next == d + [ToDoc(ps[i])]
  {}

  lemma SyncMirrorStep(ws: seq<Part>, ps: seq<Part>, i: nat)
    requires i < |ps|
    ensures var m, next := SyncMirror(ws, ps[..i]), SyncMirror(ws, ps[..i + 1]);
            && |m| == (if i > |ws| then i else |ws|)
            && (if i < |ws| then m[i] == ws[i] && next == m[i := ps[i]] else next == m + [ps[i]])
  {}

  class Writer {
    var written: seq<Part>        // mirror of what was written
    var doc: seq<DocPart>         // the entry's part list

    ghost predicate Valid()
      reads this
    {
      |written| == |doc|
    }

    constructor ()
      ensures Valid() && written == [] && doc == []
    {
      written, doc := [], [];
    }

    /** Reattach to an entry with the mirror a previous writer left. */
    constructor Resume(doc: seq<DocPart>, written: seq<Part>)
      requires |written| == |doc|
      ensures Valid() && this.written == written && this.doc == doc
    {
      this.written, this.doc := written, doc;
    }

    /** Write the folded parts.  Fails only on a text part whose body container is missing. */
    method Sync(folded: seq<Part>) returns (ok: bool)
      requires Valid()
      modifies this
      ensures Valid()
      ensures ok <==> Writable(old(written), old(doc), folded)
      ensures ok ==> doc == SyncDoc(old(written), old(doc), folded) && written == SyncMirror(old(written), folded)
      ensures !ok ==> exists i :: StoppedAt(old(written), old(doc), folded, i, doc, written)
    {
      var i := 0;
      while i < |folded|
        invariant 0 <= i <= |folded| && Valid()
        invariant Writable(old(written), old(doc), folded[..i])
        invariant doc == SyncDoc(old(written), old(doc), folded[..i])
        invariant written == SyncMirror(old(written), folded[..i])
      {
        WritableStep(old(written), old(doc), folded, i);
        SyncMirrorStep(old(written), folded, i);
        if i < |written| {
          var d := WritePart(written[i], doc[i], folded[i]);
          if d.None? {
            assert StoppedAt(old(written), old(doc), folded, i, doc, written);
            return false;
          }
          SyncDocStep(old(written), old(doc), folded, i);
          doc, written := doc[i := d.value], written[i := folded[i]];
        } else {
          SyncDocStep(old(written), old(doc), folded, i);
          doc, written := doc + [ToDoc(folded[i])], written + [folded[i]];
        }
        i := i + 1;
      }
      assert folded[..i] == folded;
      ok := true;
    }
  }

  /** A tick on a fold that extends what was written leaves the document exactly the fold. */
  lemma SyncExact(ws: seq<Part>, ps: seq<Part>)
    requires Extends(ws, ps)
    ensures Writable(ws, Docs(ws), ps) && SyncDoc(ws, Docs(ws), ps) == Docs(ps) && SyncMirror(ws, ps) == ps
  {
    forall i | 0 <= i < |ws| ensures WritePart(ws[i], Docs(ws)[i], ps[i]) == Some(ToDoc(ps[i])) {
      WriteExact(ws[i], ps[i]);
    }
  }

  /** After any tick on a document in step with its mirror, the document reads back as the parts if
      and only if none was taken away and each shows through what was written in its place. */
  lemma TickReadsBack(ws: seq<Part>, ps: seq<Part>)
    ensures Writable(ws, Docs(ws), ps)
    ensures Read(SyncDoc(ws, Docs(ws), ps)) == NormalAll(ps)
       <==> |ws| <= |ps| && forall i :: 0 <= i < |ws| ==> ShowsThrough(ws[i], ps[i])
  {
    forall i | 0 <= i < |ps| && i < |ws| ensures WritePart(ws[i], Docs(ws)[i], ps[i]).Some? {
      WriteReadsBack(ws[i], ps[i]);
    }
    var got, want := Read(SyncDoc(ws, Docs(ws), ps)), NormalAll(ps);
    if |ws| <= |ps| {
      forall i | 0 <= i < |ps| ensures got[i] == want[i] <==> (i < |ws| ==> ShowsThrough(ws[i], ps[i])) {
        if i < |ws| { WriteReadsBack(ws[i], ps[i]); }
      }
    } else {
      assert |got| == |ws| != |want|;
    }
  }

  // ---------------------------------------------------------------------------
  // What the fold does between ticks

  lemma RefreshesReflexive(p: Part)
    ensures Refreshes(p, p)
  {}

  lemma RefreshesTransitive(a: Part, b: Part, c: Part)
    requires Refreshes(a, b) && Refreshes(b, c)
    ensures Refreshes(a, c)
  {
    KindNames(a, b);
    KindNames(b, c);
    KindNames(a, c);
  }

  lemma ExtendsTransitive(a: seq<Part>, b: seq<Part>, c: seq<Part>)
    requires Extends(a, b) && Extends(b, c)
    ensures Extends(a, c)
  {
    forall i | 0 <= i < |a| ensures Refreshes(a[i], c[i]) { RefreshesTransitive(a[i], b[i], c[i]); }
  }

  /** Tools the fold makes never carry an output or an inline diff. */
  predicate Slim(ps: seq<Part>) {
    forall p :: p in ps && p.Tool? ==> p.output.None? && p.diff.None? && p.outputBytes.None?
  }

  /** An event that stays within the turn, does not turn another part into an image, and does not
      take diff stats away. */
  predicate Safe(ps: seq<Part>, e: Event) {
    match e
    case SessionStarted => false
    case Steered => false
    case GeneratedImage(id, _, _, _) => PartAt(ps, id) < |ps| ==> ps[PartAt(ps, id)].Image?
    case ToolResult(id, _, stats) =>
      stats.Some? || forall p :: p in ps && p.Tool? && p.id == id ==> p.diffStats.None?
    case _ => true
  }

  predicate SafeRun(ps: seq<Part>, es: seq<Event>)
    decreases |es|
  {
    es == [] || (Safe(ps, es[0]) && SafeRun(Fold(ps, es[0]), es[1..]))
  }

  lemma OneChanged(ps: seq<Part>, i: nat, p: Part)
    requires i < |ps| && Refreshes(ps[i], p)
    ensures Extends(ps, ps[i := p])
  {
    forall j | 0 <= j < |ps| ensures Refreshes(ps[j], ps[i := p][j]) { if j != i { RefreshesReflexive(ps[j]); } }
  }

  lemma OneAdded(ps: seq<Part>, p: Part)
    ensures Extends(ps, ps + [p]) && Extends(ps, ps)
  {
    forall j | 0 <= j < |ps| ensures Refreshes(ps[j], (ps + [p])[j]) { RefreshesReflexive(ps[j]); }
  }

  lemma FoldStaysSlim(ps: seq<Part>, e: Event)
    requires Slim(ps)
    ensures Slim(Fold(ps, e))
  {
    forall i | 0 <= i < |Fold(ps, e)| && Fold(ps, e)[i].Tool?
      ensures var p := Fold(ps, e)[i]; p.output.None? && p.diff.None? && p.outputBytes.None?
    {
      if i < |ps| { assert ps[i] in ps; }
    }
  }

  lemma ResolvedRefreshes(p: Part, id: string, isError: bool, stats: Option<Json>)
    requires p.Tool? ==> p.output.None? && p.diff.None? && p.outputBytes.None?
    requires p.Tool? && p.id == id ==> stats.Some? || p.diffStats.None?
    ensures Refreshes(p, Resolved(p, id, isError, stats))
  {}

  lemma StatsRefresh(p: Part, id: string, stats: Json)
    ensures Refreshes(p, WithStats(p, id, stats))
  {}

  lemma AnswerRefreshes(p: Part, id: string)
    ensures Refreshes(p, Answered(p, id))
  {}

  lemma SubagentRefreshes(p: Part, id: string, status: Option<SubagentStatus>)
    ensures Refreshes(p, WithSubagent(p, id, status))
  {}

  /** A safe event that touches parts in place extends the parts. */
  lemma UpdateExtends(ps: seq<Part>, e: Event)
    requires Slim(ps) && Safe(ps, e)
    requires e.ToolResult? || e.ToolDiffStats? || e.InputResolved? || e.Subagent?
    ensures Extends(ps, Fold(ps, e))
  {
    forall i | 0 <= i < |ps| ensures Refreshes(ps[i], Fold(ps, e)[i]) {
      var p := ps[i];
      assert p in ps;
      match e
      case ToolResult(id, isError, stats) => ResolvedRefreshes(p, id, isError, stats);
      case ToolDiffStats(id, stats) => StatsRefresh(p, id, stats);
      case InputResolved(requestId) => AnswerRefreshes(p, requestId);
      case Subagent(parent, event) => SubagentRefreshes(p, parent, StatusOf(event));
    }
  }

  /** A safe event extends the parts. */
  lemma FoldExtends(ps: seq<Part>, e: Event)
    requires Slim(ps) && Safe(ps, e)
    ensures Extends(ps, Fold(ps, e))
  {
    if e.ToolResult? || e.ToolDiffStats? || e.InputResolved? || e.Subagent? {
      UpdateExtends(ps, e);
    } else {
      var out := Fold(ps, e);
      if out == ps {
        OneAdded(ps, Text("", []));
      } else if |out| > |ps| {
        OneAdded(ps, out[|ps|]);
        assert out == ps + [out[|ps|]];
      } else {
        var i := if e.GeneratedImage? then PartAt(ps, e.id) else if e.ToolCalled? then ToolAt(ps, e.id) else |ps| - 1;
        OneChanged(ps, i, out[i]);
        assert out == ps[i := out[i]];
      }
    }
  }

  lemma {:induction false} FoldAllExtends(ps: seq<Part>, es: seq<Event>)
    requires Slim(ps) && SafeRun(ps, es)
    ensures Extends(ps, FoldAll(ps, es)) && Slim(FoldAll(ps, es))
    decreases |es|
  {
    if es == [] {
      OneAdded(ps, Text("", []));
    } else {
      FoldExtends(ps, es[0]);
      FoldStaysSlim(ps, es[0]);
      FoldAllExtends(Fold(ps, es[0]), es[1..]);
      ExtendsTransitive(ps, Fold(ps, es[0]), FoldAll(ps, es));
    }
  }

  // ---------------------------------------------------------------------------
  // Whole turns

  /** What happens during a turn: events reach the fold, and at any moment the parts are committed
      or the writer is dropped and resumed from its mirror. */
  datatype Action = On(event: Event) | Commit | Reattach

  datatype Turn = Turn(parts: seq<Part>, written: seq<Part>, doc: seq<DocPart>)

  predicate Proceeds(t: Turn, a: Action) {
    a.Commit? ==> |t.written| == |t.doc| && Writable(t.written, t.doc, t.parts)
  }

  function Proceed(t: Turn, a: Action): Turn
    requires Proceeds(t, a)
  {
    match a
    case On(e) => t.(parts := Fold(t.parts, e))
    case Commit => Turn(t.parts, SyncMirror(t.written, t.parts), SyncDoc(t.written, t.doc, t.parts))
    case Reattach => t
  }

  function Events(actions: seq<Action>): seq<Event> {
    if actions == [] then [] else (if actions[0].On? then [actions[0].event] else []) + Events(actions[1..])
  }

  ghost predicate Committed(t: Turn, actions: seq<Action>, end: Turn)
    decreases |actions|
  {
    if actions == [] then end == t
    else Proceeds(t, actions[0]) && Committed(Proceed(t, actions[0]), actions[1..], end)
  }

  /** The document holds what was written, and the fold extends it. */
  ghost predicate InStep(t: Turn) {
    t.doc == Docs(t.written) && Slim(t.parts) && Extends(t.written, t.parts)
  }

  lemma ProceedKeepsStep(t: Turn, a: Action)
    requires InStep(t) && (a.On? ==> Safe(t.parts, a.event))
    ensures Proceeds(t, a) && InStep(Proceed(t, a))
  {
    match a
    case On(e) =>
      FoldExtends(t.parts, e);
      FoldStaysSlim(t.parts, e);
      ExtendsTransitive(t.written, t.parts, Fold(t.parts, e));
    case Commit =>
      SyncExact(t.written, t.parts);
      OneAdded(t.parts, Text("", []));
    case Reattach =>
  }

  lemma {:induction false} TurnKeepsStep(t: Turn, actions: seq<Action>) returns (end: Turn)
    requires InStep(t) && SafeRun(t.parts, Events(actions))
    ensures Committed(t, actions, end) && InStep(end) && end.parts == FoldAll(t.parts, Events(actions))
    decreases |actions|
  {
    if actions == [] {
      end := t;
    } else {
      var rest := Events(actions[1..]);
      if actions[0].On? {
        assert Events(actions) == [actions[0].event] + rest;
        assert Events(actions)[1..] == rest;
      } else {
        assert Events(actions) == rest;
      }
      ProceedKeepsStep(t, actions[0]);
      end := TurnKeepsStep(Proceed(t, actions[0]), actions[1..]);
    }
  }

  /** For every safe turn and every choice of commit ticks and re-attachments, the final tick leaves a
      document that reads back as the fold of all the events. */
  lemma DocRefinesFold(actions: seq<Action>) returns (end: Turn)
    requires SafeRun([], Events(actions))
    ensures Committed(Turn([], [], []), actions, end)
    ensures Proceeds(end, Commit)
    ensures Proceed(end, Commit).doc == Docs(FoldAll([], Events(actions)))
    ensures Read(Proceed(end, Commit).doc) == NormalAll(FoldAll([], Events(actions)))
  {
    end := TurnKeepsStep(Turn([], [], []), actions);
    SyncExact(end.written, end.parts);
  }

  /** A result without a diff after stats for the same tool leaves the stale stats in the document,
      whenever a tick came between. */
  lemma StaleStatsStay(p: Part, id: string, isError: bool)
    requires p.Tool? && p.id == id && p.diffStats.Some?
    ensures var q := Resolved(p, id, isError, None);
            FromDoc(WritePart(p, ToDoc(p), q).value) != Normal(q)
  {
    WriteReadsBack(p, Resolved(p, id, isError, None));
  }

  /** An image over a text part with its id leaves a text part in the document. */
  lemma ImageOverTextStaysText(p: Part, path: string, name: string, mimeType: string)
    requires p.Text?
    ensures var q := Image(p.id, path, name, mimeType);
            FromDoc(WritePart(p, ToDoc(p), q).value) == p != Normal(q)
  {
    OtherKindStays(p, Image(p.id, path, name, mimeType));
  }
}
