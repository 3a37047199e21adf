/**
 What the fold of agent events keeps: every streamed byte of prose and of reasoning, in order, and
 one part for each tool call and each input request.
 */
module FoldConservation {
  import opened Wrappers
  import opened Utf8
  import opened Transcript
  import opened PartsFold

  /** The bytes an event adds to one stream. */
  function Adds(e: Event, s: Stream): Bytes {
    match e
    case TextDelta(text) => if s.Prose? then text else []
    case ReasoningDelta(text) => if s.Thought? then text else []
    case _ => []
  }

  predicate OpensTurn(e: Event) {
    e.SessionStarted? || e.Steered?
  }

  function Extended(so: Bytes, e: Event, s: Stream): Bytes {
    (if OpensTurn(e) then [] else so) + Adds(e, s)
  }

  /** The bytes streamed in a run, since the last event that opens a new turn. */
  function Streamed(so: Bytes, es: seq<Event>, s: Stream): Bytes
    decreases |es|
  {
    if es == [] then so else Streamed(Extended(so, es[0], s), es[1..], s)
  }

  /** How many bytes of a stream an image takes the place of. */
  function Replaced(ps: seq<Part>, e: Event, s: Stream): nat {
    if e.GeneratedImage? && PartAt(ps, e.id) < |ps| then |StreamBody(ps[PartAt(ps, e.id)], s)| else 0
  }

  function Gone(ps: seq<Part>, so: nat, e: Event, s: Stream): nat {
    (if OpensTurn(e) then 0 else so) + Replaced(ps, e, s)
  }

  /** How many bytes images have taken the place of, since the last event that opens a new turn. */
  function Lost(ps: seq<Part>, so: nat, es: seq<Event>, s: Stream): nat
    decreases |es|
  {
    if es == [] then so else Lost(Fold(ps, es[0]), Gone(ps, so, es[0], s), es[1..], s)
  }

  lemma StreamSnoc(ps: seq<Part>, p: Part, s: Stream)
    ensures StreamOf(ps + [p], s) == StreamOf(ps, s) + StreamBody(p, s)
  {
    StreamConcat(ps, [p], s);
    assert StreamOf([p], s) == StreamBody(p, s) + StreamOf([p][1..], s);
  }

  lemma StreamAt(ps: seq<Part>, i: nat, p: Part, s: Stream)
    requires i < |ps|
    ensures StreamOf(ps, s) == StreamOf(ps[..i], s) + StreamBody(ps[i], s) + StreamOf(ps[i + 1..], s)
    ensures StreamOf(ps[i := p], s) == StreamOf(ps[..i], s) + StreamBody(p, s) + StreamOf(ps[i + 1..], s)
  {
    var a, z := ps[..i], ps[i + 1..];
    assert ps == a + [ps[i]] + z && ps[i := p] == a + [p] + z;
    StreamSnoc(a, ps[i], s);
    StreamSnoc(a, p, s);
    StreamConcat(a + [ps[i]], z, s);
    StreamConcat(a + [p], z, s);
  }

  lemma {:induction false} StreamSame(ps: seq<Part>, qs: seq<Part>, s: Stream)
    requires |ps| == |qs| && forall i :: 0 <= i < |ps| ==> StreamBody(ps[i], s) == StreamBody(qs[i], s)
    ensures StreamOf(ps, s) == StreamOf(qs, s)
  {
    if ps != [] { StreamSame(ps[1..], qs[1..], s); }
  }

  /** A delta that grows the last part. */
  lemma GrowthStreams(ps: seq<Part>, p: Part, more: Bytes, s: Stream)
    requires ps != [] && StreamBody(p, s) == StreamBody(ps[|ps| - 1], s) + more
    ensures StreamOf(ps[|ps| - 1 := p], s) == StreamOf(ps, s) + more
  {
    StreamAt(ps, |ps| - 1, p, s);
    assert ps[|ps|..] == [];
  }

  /** An event that replaces nothing streams exactly what it adds. */
  lemma FoldStreams(ps: seq<Part>, e: Event, s: Stream)
    requires Replaced(ps, e, s) == 0
    ensures StreamOf(Fold(ps, e), s) == Extended(StreamOf(ps, s), e, s)
  {
    var qs := Fold(ps, e);
    if |qs| == |ps| + 1 {
      assert qs == ps + [qs[|ps|]];
      StreamSnoc(ps, qs[|ps|], s);
    } else if e.TextDelta? || (e.ReasoningDelta? && e.text != []) {
      GrowthStreams(ps, qs[|ps| - 1], Adds(e, s), s);
    } else if !OpensTurn(e) {
      StreamSame(ps, qs, s);
    }
  }

  /** In every case the bytes kept and the bytes replaced add up. */
  lemma FoldBalance(ps: seq<Part>, so: Bytes, gone: nat, e: Event, s: Stream)
    requires |StreamOf(ps, s)| + gone == |so|
    ensures |StreamOf(Fold(ps, e), s)| + Gone(ps, gone, e, s) == |Extended(so, e, s)|
  {
    if Replaced(ps, e, s) == 0 {
      FoldStreams(ps, e, s);
    } else {
      StreamAt(ps, PartAt(ps, e.id), Fold(ps, e)[PartAt(ps, e.id)], s);
    }
  }

  lemma {:induction false} RunBalance(ps: seq<Part>, so: Bytes, gone: nat, es: seq<Event>, s: Stream)
    requires |StreamOf(ps, s)| + gone == |so|
    ensures |StreamOf(FoldAll(ps, es), s)| + Lost(ps, gone, es, s) == |Streamed(so, es, s)|
    decreases |es|
  {
    if es != [] {
      FoldBalance(ps, so, gone, es[0], s);
      RunBalance(Fold(ps, es[0]), Extended(so, es[0], s), Gone(ps, gone, es[0], s), es[1..], s);
    }
  }

  /** What a run without loss leaves; after a loss the next turn starts afresh. */
  lemma {:induction false} RunStreams(ps: seq<Part>, so: Bytes, gone: nat, es: seq<Event>, s: Stream)
    requires gone == 0 ==> StreamOf(ps, s) == so
    ensures Lost(ps, gone, es, s) == 0 ==> StreamOf(FoldAll(ps, es), s) == Streamed(so, es, s)
    decreases |es|
  {
    if es != [] {
      var gone' := Gone(ps, gone, es[0], s);
      if gone' == 0 { FoldStreams(ps, es[0], s); }
      RunStreams(Fold(ps, es[0]), Extended(so, es[0], s), gone', es[1..], s);
    }
  }

  /** For every run, the prose and the reasoning of the parts are exactly the bytes streamed in the
      turn, if and only if no image took the place of a byte of them in it. */
  lemma NothingStreamedIsLost(ps: seq<Part>, es: seq<Event>, s: Stream)
    ensures StreamOf(FoldAll(ps, es), s) == Streamed(StreamOf(ps, s), es, s) <==> Lost(ps, 0, es, s) == 0
  {
    RunBalance(ps, StreamOf(ps, s), 0, es, s);
    RunStreams(ps, StreamOf(ps, s), 0, es, s);
  }

  // ---------------------------------------------------------------------------
  // One part each

  /** No two tool parts, and no two input parts, share an id. */
  ghost predicate OneEach(ps: seq<Part>) {
    forall i, j :: 0 <= i < j < |ps| && ((ps[i].Tool? && ps[j].Tool?) || (ps[i].Input? && ps[j].Input?)) ==> ps[i].id != ps[j].id
  }

  lemma OneEachSameShape(ps: seq<Part>, qs: seq<Part>)
    requires OneEach(ps) && |ps| == |qs|
    requires forall i :: 0 <= i < |ps| ==>
               qs[i].id == ps[i].id && (qs[i].Tool? ==> ps[i].Tool?) && (qs[i].Input? ==> ps[i].Input?)
    ensures OneEach(qs)
  {}

  lemma OneEachSnoc(ps: seq<Part>, p: Part)
    requires OneEach(ps)
    requires forall q :: q in ps && ((q.Tool? && p.Tool?) || (q.Input? && p.Input?)) ==> q.id != p.id
    ensures OneEach(ps + [p])
  {
    var qs := ps + [p];
    forall i, j | 0 <= i < j < |qs| && ((qs[i].Tool? && qs[j].Tool?) || (qs[i].Input? && qs[j].Input?)) ensures qs[i].id != qs[j].id {
      assert qs[i] == ps[i] && ps[i] in ps;
    }
  }

  lemma {:induction false} NoToolAt(ps: seq<Part>, id: string, p: Part)
    requires ToolAt(ps, id) == |ps| && p in ps && p.Tool?
    ensures p.id != id
  {
    if p != ps[0] { NoToolAt(ps[1..], id, p); }
  }

  lemma FoldKeepsOneEach(ps: seq<Part>, e: Event)
    requires OneEach(ps)
    ensures OneEach(Fold(ps, e))
  {
    var qs := Fold(ps, e);
    if |qs| == |ps| + 1 {
      var p := qs[|ps|];
      assert qs == ps + [p];
      forall q | q in ps && ((q.Tool? && p.Tool?) || (q.Input? && p.Input?)) ensures q.id != p.id {
        if p.Tool? { NoToolAt(ps, p.id, q); }
      }
      OneEachSnoc(ps, p);
    } else if !(e.SessionStarted? || e.Steered?) {
      OneEachSameShape(ps, qs);
    }
  }

  /** However often a call or a request is announced, it keeps one part. */
  lemma {:induction false} OnePartEach(ps: seq<Part>, es: seq<Event>)
    requires OneEach(ps)
    ensures OneEach(FoldAll(ps, es))
    decreases |es|
  {
    if es != [] {
      FoldKeepsOneEach(ps, es[0]);
      OnePartEach(Fold(ps, es[0]), es[1..]);
    }
  }
}
