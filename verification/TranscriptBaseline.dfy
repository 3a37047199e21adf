/**
 The replay baseline: which parts of an entry, and how much of their text, were already there
 when a viewer subscribed.
 */
module TranscriptBaseline {
  import opened Wrappers
  import opened Utf8
  import opened Transcript

  /** Part ids with text lengths, by entry id. */
  type Baseline = map<string, map<string, nat>>

  function TextLen(p: Part): nat {
    if TextBodied(p) then |p.text| else 0
  }

  predicate PartCovered(known: map<string, nat>, p: Part) {
    p.id in known && (TextBodied(p) ==> known[p.id] >= |p.text|)
  }

  /** Everything in the entry was already there. */
  predicate Covers(b: Baseline, e: Entry) {
    e.id in b && forall p :: p in e.parts ==> PartCovered(b[e.id], p)
  }

  // A later part or entry with the same id overwrites the earlier one.

  function CaptureParts(ps: seq<Part>): map<string, nat> {
    if ps == [] then map[] else CaptureParts(ps[..|ps| - 1])[ps[|ps| - 1].id := TextLen(ps[|ps| - 1])]
  }

  function Capture(es: seq<Entry>): Baseline {
    if es == [] then map[] else Capture(es[..|es| - 1])[es[|es| - 1].id := CaptureParts(es[|es| - 1].parts)]
  }

  /** The position of the part whose length is recorded for this id, or the length of the list. */
  function LastWith(ps: seq<Part>, id: string): (i: nat)
    ensures i <= |ps|
    ensures i < |ps| ==> ps[i].id == id && forall j :: i < j < |ps| ==> ps[j].id != id
    ensures i == |ps| ==> forall j :: 0 <= j < |ps| ==> ps[j].id != id
  {
    if ps == [] then 0
    else if ps[|ps| - 1].id == id then |ps| - 1
    else
      var i := LastWith(ps[..|ps| - 1], id);
      if i == |ps| - 1 then |ps| else i
  }

  lemma {:induction false} CapturedLength(ps: seq<Part>, i: nat)
    requires i < |ps|
    ensures ps[i].id in CaptureParts(ps)
    ensures (forall j :: i < j < |ps| ==> ps[j].id != ps[i].id) ==> CaptureParts(ps)[ps[i].id] == TextLen(ps[i])
  {
    if i < |ps| - 1 { CapturedLength(ps[..|ps| - 1], i); }
  }

  lemma {:induction false} CapturedIds(ps: seq<Part>, id: string)
    requires id in CaptureParts(ps)
    ensures exists i :: 0 <= i < |ps| && ps[i].id == id
  {
    if ps[|ps| - 1].id != id { CapturedIds(ps[..|ps| - 1], id); }
  }

  /** No text part is longer than the last part with its id. */
  predicate LastIsLongest(ps: seq<Part>) {
    forall i :: 0 <= i < |ps| && TextBodied(ps[i]) ==> TextLen(ps[LastWith(ps, ps[i].id)]) >= |ps[i].text|
  }

  lemma CoveredAt(ps: seq<Part>, i: nat)
    requires i < |ps|
    ensures PartCovered(CaptureParts(ps), ps[i]) <==> (TextBodied(ps[i]) ==> TextLen(ps[LastWith(ps, ps[i].id)]) >= |ps[i].text|)
  {
    CapturedLength(ps, i);
    CapturedLength(ps, LastWith(ps, ps[i].id));
  }

  /** No later entry of the transcript has this entry's id. */
  predicate LastOfId(es: seq<Entry>, i: nat)
    requires i < |es|
  {
    forall j :: i < j < |es| ==> es[j].id != es[i].id
  }

  /** A transcript's baseline records each entry's parts, the last entry of an id winning. */
  lemma {:induction false} CapturedEntry(es: seq<Entry>, i: nat)
    requires i < |es| && LastOfId(es, i)
    ensures es[i].id in Capture(es) && Capture(es)[es[i].id] == CaptureParts(es[i].parts)
  {
    if i < |es| - 1 { CapturedEntry(es[..|es| - 1], i); }
  }

  lemma PartsCovered(ps: seq<Part>)
    ensures (forall p :: p in ps ==> PartCovered(CaptureParts(ps), p)) <==> LastIsLongest(ps)
  {
    forall i | 0 <= i < |ps|
      ensures PartCovered(CaptureParts(ps), ps[i]) <==> (TextBodied(ps[i]) ==> TextLen(ps[LastWith(ps, ps[i].id)]) >= |ps[i].text|)
    {
      CoveredAt(ps, i);
    }
    assert forall i :: 0 <= i < |ps| ==> ps[i] in ps;
  }

  /** The baseline of a transcript covers an entry of it exactly when no duplicate part id recorded a
      shorter text. */
  lemma CaptureCovers(es: seq<Entry>, i: nat)
    requires i < |es| && LastOfId(es, i)
    ensures Covers(Capture(es), es[i]) <==> LastIsLongest(es[i].parts)
  {
    CapturedEntry(es, i);
    PartsCovered(es[i].parts);
  }

  /** With unique part ids the baseline of a transcript always covers its entries. */
  lemma CaptureCoversUnique(es: seq<Entry>, i: nat)
    requires i < |es| && LastOfId(es, i)
    requires forall j, k :: 0 <= j < k < |es[i].parts| ==> es[i].parts[j].id != es[i].parts[k].id
    ensures Covers(Capture(es), es[i])
  {
    CaptureCovers(es, i);
  }

  // ---------------------------------------------------------------------------
  // The historical prefix

  function Historical(known: map<string, nat>, p: Part): Part
    requires p.id in known
  {
    if TextBodied(p) then
      var end := BackUp(p.text, if known[p.id] < |p.text| then known[p.id] else |p.text|);
      if p.Text? then Text(p.id, p.text[..end]) else Reasoning(p.id, p.text[..end])
    else p
  }

  function HistoricalParts(known: map<string, nat>, ps: seq<Part>): seq<Part> {
    if ps == [] then []
    else HistoricalParts(known, ps[..|ps| - 1]) +
         (if ps[|ps| - 1].id in known then [Historical(known, ps[|ps| - 1])] else [])
  }

  function HistoricalOf(b: Baseline, e: Entry): Option<Entry> {
    if e.id in b then Some(e.(parts := HistoricalParts(b[e.id], e.parts))) else None
  }

  method HistoricalEntry(b: Baseline, e: Entry) returns (out: Option<Entry>)
    ensures out == HistoricalOf(b, e)
  {
    if e.id !in b { return None; }
    var known := b[e.id];
    var kept: seq<Part> := [];
    var i := 0;
    while i < |e.parts|
      invariant 0 <= i <= |e.parts|
      invariant kept == HistoricalParts(known, e.parts[..i])
    {
      var p := e.parts[i];
      assert e.parts[..i + 1][..i] == e.parts[..i];
      if p.id in known {
        if TextBodied(p) {
          var end := Cutoff(p.text, known[p.id]);
          p := if p.Text? then Text(p.id, p.text[..end]) else Reasoning(p.id, p.text[..end]);
        }
        kept := kept + [p];
      }
      i := i + 1;
    }
    assert e.parts[..i] == e.parts;
    out := Some(e.(parts := kept));
  }

  /** Whatever length was recorded, the cut ends at a character boundary at or before it. */
  method Cutoff(text: Bytes, len: nat) returns (end: nat)
    ensures end <= len && end <= |text| && IsCharBoundary(text, end)
    ensures end == BackUp(text, if len < |text| then len else |text|)
  {
    end := if len < |text| then len else |text|;
    while !IsCharBoundary(text, end)
      invariant 0 <= end <= |text| && end <= len
      invariant BackUp(text, end) == BackUp(text, if len < |text| then len else |text|)
      decreases end
    {
      end := end - 1;
    }
  }

  /** A stale or foreign length never splits a character. */
  lemma HistoricalIsText(known: map<string, nat>, p: Part)
    requires p.id in known && TextBodied(p) && IsText(p.text)
    ensures IsText(Historical(known, p).text) && Historical(known, p).text <= p.text
    ensures |Historical(known, p).text| <= known[p.id]
  {
    CutAtBoundary(p.text, |Historical(known, p).text|);
  }

  /** The end of a well-formed prefix is a character boundary of the whole. */
  lemma {:induction false} PrefixEndsAtBoundary(cs: seq<Bytes>, ds: seq<Bytes>)
    requires (forall c :: c in cs ==> IsChar(c)) && (forall d :: d in ds ==> IsChar(d))
    requires Concat(cs) <= Concat(ds)
    ensures |Concat(cs)| < |Concat(ds)| ==> !Continuation(Concat(ds)[|Concat(cs)|])
  {
    var s, t := Concat(cs), Concat(ds);
    if ds != [] {
      assert ds[0] in ds && t[0] == ds[0][0];
      if cs != [] {
        var c, s', t' := cs[0], Concat(cs[1..]), Concat(ds[1..]);
        assert c in cs && s[0] == c[0] == t[0];
        assert |c| == |ds[0]|;
        assert s[|c|..] == s' && t[|c|..] == t';
        assert s' <= t' by { assert s == t[..|s|]; assert s' == t'[..|s'|]; }
        PrefixEndsAtBoundary(cs[1..], ds[1..]);
      }
    }
  }

  lemma TextPrefixBoundary(s: Bytes, t: Bytes)
    requires IsText(s) && IsText(t) && s <= t
    ensures IsCharBoundary(t, |s|)
  {
    var cs: seq<Bytes> :| (forall c :: c in cs ==> IsChar(c)) && s == Concat(cs);
    var ds: seq<Bytes> :| (forall c :: c in ds ==> IsChar(c)) && t == Concat(ds);
    PrefixEndsAtBoundary(cs, ds);
  }

  /** `q` continues `p`: the same part, its text perhaps longer. */
  ghost predicate Continues(p: Part, q: Part) {
    if TextBodied(p) then
      TextBodied(q) && (p.Text? <==> q.Text?) && p.id == q.id && IsText(p.text) && IsText(q.text) && p.text <= q.text
    else q == p
  }

  /** `later` only appends to `e`: its parts continue, new parts follow under new ids. */
  ghost predicate AppendOnly(e: Entry, later: Entry) {
    && later.id == e.id && |e.parts| <= |later.parts|
    && (forall i :: 0 <= i < |e.parts| ==> Continues(e.parts[i], later.parts[i]))
    && (forall i, j :: 0 <= i < |e.parts| <= j < |later.parts| ==> later.parts[j].id != e.parts[i].id)
    && (forall i, j :: 0 <= i < j < |e.parts| ==> e.parts[i].id != e.parts[j].id)
  }

  lemma HistoricalRestores(known: map<string, nat>, p: Part, q: Part)
    requires Continues(p, q) && p.id in known && known[p.id] == TextLen(p)
    ensures q.id == p.id && Historical(known, q) == p
  {
    if TextBodied(p) { TextPrefixBoundary(p.text, q.text); }
  }

  /** What one part of `later` contributes. */
  lemma HistoricalAt(e: Entry, later: Entry, i: nat)
    requires AppendOnly(e, later) && i < |later.parts|
    ensures var known, q := CaptureParts(e.parts), later.parts[i];
            if i < |e.parts| then q.id in known && Historical(known, q) == e.parts[i] else q.id !in known
  {
    var known, q := CaptureParts(e.parts), later.parts[i];
    if i < |e.parts| {
      CapturedLength(e.parts, i);
      HistoricalRestores(known, e.parts[i], q);
    } else if q.id in known {
      CapturedIds(e.parts, q.id);
    }
  }

  lemma {:induction false} HistoricalPrefix(known: map<string, nat>, ps: seq<Part>, qs: seq<Part>, n: nat)
    requires |ps| <= |qs| && n <= |qs|
    requires forall i :: 0 <= i < |qs| ==> if i < |ps| then qs[i].id in known && Historical(known, qs[i]) == ps[i] else qs[i].id !in known
    ensures HistoricalParts(known, qs[..n]) == ps[..if n < |ps| then n else |ps|]
  {
    if n > 0 {
      HistoricalPrefix(known, ps, qs, n - 1);
      assert qs[..n][..n - 1] == qs[..n - 1];
    }
  }

  lemma HistoryOfEntry(e: Entry, later: Entry)
    requires AppendOnly(e, later)
    ensures HistoricalParts(CaptureParts(e.parts), later.parts) == e.parts
  {
    forall i | 0 <= i < |later.parts|
      ensures var known, q := CaptureParts(e.parts), later.parts[i];
              if i < |e.parts| then q.id in known && Historical(known, q) == e.parts[i] else q.id !in known
    {
      HistoricalAt(e, later, i);
    }
    HistoricalPrefix(CaptureParts(e.parts), e.parts, later.parts, |later.parts|);
    assert later.parts[..|later.parts|] == later.parts && e.parts[..|e.parts|] == e.parts;
  }

  /** For any append-only extension of an entry of the captured transcript, the historical entry
      holds exactly the captured parts. */
  lemma HistoryIsExact(es: seq<Entry>, i: nat, later: Entry)
    requires i < |es| && LastOfId(es, i) && AppendOnly(es[i], later)
    ensures HistoricalOf(Capture(es), later) == Some(later.(parts := es[i].parts))
  {
    CapturedEntry(es, i);
    HistoryOfEntry(es[i], later);
  }

  lemma CoveredIffSame(e: Entry, later: Entry, k: nat)
    requires AppendOnly(e, later) && k < |later.parts|
    ensures PartCovered(CaptureParts(e.parts), later.parts[k]) <==> k < |e.parts| && later.parts[k] == e.parts[k]
  {
    if k < |e.parts| {
      CapturedLength(e.parts, k);
    } else if later.parts[k].id in CaptureParts(e.parts) {
      CapturedIds(e.parts, later.parts[k].id);
    }
  }

  lemma PartsCoveredIffSame(e: Entry, later: Entry)
    requires AppendOnly(e, later)
    ensures (forall p :: p in later.parts ==> PartCovered(CaptureParts(e.parts), p)) <==> later.parts == e.parts
  {
    var known := CaptureParts(e.parts);
    if forall p :: p in later.parts ==> PartCovered(known, p) {
      forall k | 0 <= k < |later.parts| ensures k < |e.parts| && later.parts[k] == e.parts[k] {
        assert later.parts[k] in later.parts;
        CoveredIffSame(e, later, k);
      }
      if later.parts != [] {
        var last: nat := |later.parts| - 1;
        assert later.parts[last] in later.parts;
        CoveredIffSame(e, later, last);
      }
    }
    if later.parts == e.parts {
      forall p | p in later.parts ensures PartCovered(known, p) {
        var k :| 0 <= k < |later.parts| && later.parts[k] == p;
        CoveredIffSame(e, later, k);
      }
    }
  }

  /** A captured entry stays covered exactly as long as nothing is added to it. */
  lemma CoversIffUnchanged(es: seq<Entry>, i: nat, later: Entry)
    requires i < |es| && LastOfId(es, i) && AppendOnly(es[i], later)
    ensures Covers(Capture(es), later) <==> later.parts == es[i].parts
  {
    CapturedEntry(es, i);
    PartsCoveredIffSame(es[i], later);
  }

  lemma {:induction false} CapturedEntryIds(es: seq<Entry>, id: string)
    requires id in Capture(es)
    ensures exists i :: 0 <= i < |es| && es[i].id == id
  {
    if es[|es| - 1].id != id { CapturedEntryIds(es[..|es| - 1], id); }
  }

  /** An entry that came after the capture has no history. */
  lemma NewEntryHasNoHistory(es: seq<Entry>, later: Entry)
    requires forall i :: 0 <= i < |es| ==> es[i].id != later.id
    ensures HistoricalOf(Capture(es), later) == None && !Covers(Capture(es), later)
  {
    if later.id in Capture(es) { CapturedEntryIds(es, later.id); }
  }
}
