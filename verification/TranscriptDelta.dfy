/**
 Transcript frames: the diff of two transcripts and its application to a viewer's copy.
 The main result says exactly when applying the diff of `prev` and `next` to `prev` gives `next`.
 */
module TranscriptDelta {
  import opened Wrappers
  import opened Utf8
  import opened Transcript

  /** An inserted or replaced entry, positioned after `after` (`None` is the head). */
  datatype Upsert = Upsert(after: Option<string>, entry: Entry)

  /** Text appended to one part; `len` is the part's length afterwards. */
  datatype TextAppend = TextAppend(entry: string, part: string, text: Bytes, len: nat)

  datatype Frame =
    | Reset(entries: seq<Entry>)
    | Delta(upsert: seq<Upsert>, append: seq<TextAppend>, remove: seq<string>, count: nat)

  datatype Desync = MissingAnchor | MissingEntry | MissingPart | LengthMismatch | CountMismatch

  // ---------------------------------------------------------------------------
  // Lists of entries

  /** First position of the entry, or the length. */
  function Position(es: seq<Entry>, id: string): (i: nat)
    ensures i <= |es|
    ensures i < |es| ==> es[i].id == id
    ensures forall j :: 0 <= j < i ==> es[j].id != id
  {
    if es == [] || es[0].id == id then 0 else 1 + Position(es[1..], id)
  }

  /** Last position of the entry, or the length: what an index built by insertion recalls. */
  function Recall(es: seq<Entry>, id: string): (i: nat)
    ensures i <= |es|
    ensures i < |es| ==> es[i].id == id && forall j :: i < j < |es| ==> es[j].id != id
    ensures i == |es| ==> forall j :: 0 <= j < |es| ==> es[j].id != id
  {
    if es == [] then 0
    else if es[|es| - 1].id == id then |es| - 1
    else
      var i := Recall(es[..|es| - 1], id);
      if i == |es| - 1 then |es| else i
  }

  predicate Unique(es: seq<Entry>) {
    forall i, j :: 0 <= i < j < |es| ==> es[i].id != es[j].id
  }

  function IdSet(es: seq<Entry>): set<string> {
    set e | e in es :: e.id
  }

  /** The id before position `i`. */
  function Before(es: seq<Entry>, i: nat): Option<string>
    requires i <= |es|
  {
    if i == 0 then None else Some(es[i - 1].id)
  }

  /** The entries whose id is in `keep`, in order. */
  function Only(es: seq<Entry>, keep: set<string>): seq<Entry> {
    if es == [] then [] else (if es[0].id in keep then [es[0]] else []) + Only(es[1..], keep)
  }

  function Ids(es: seq<Entry>): seq<string> {
    seq(|es|, i requires 0 <= i < |es| => es[i].id)
  }

  // ---------------------------------------------------------------------------
  // Diff

  predicate SameBody(p: Part, n: Part) {
    ((p.Text? && n.Text?) || (p.Reasoning? && n.Reasoning?)) && p.id == n.id
  }

  predicate Grew(p: Part, n: Part) {
    SameBody(p, n) && p.text <= n.text
  }

  function AppendOf(entry: string, p: Part, n: Part): TextAppend
    requires Grew(p, n)
  {
    TextAppend(entry, n.id, n.text[|p.text|..], |n.text|)
  }

  /** The scan over the parts of an entry for its single grown part. */
  function Scan(entry: string, ps: seq<Part>, ns: seq<Part>, found: Option<TextAppend>): Option<TextAppend>
    requires |ps| == |ns|
    decreases |ps|
  {
    if ps == [] then found
    else if ps[0] == ns[0] then Scan(entry, ps[1..], ns[1..], found)
    else if Grew(ps[0], ns[0]) && found.None? then Scan(entry, ps[1..], ns[1..], Some(AppendOf(entry, ps[0], ns[0])))
    else None
  }

  /** Everything but the parts and the duration agrees. */
  predicate SameFrame(p: Entry, n: Entry) {
    && p.id == n.id && p.role == n.role && p.createdAt == n.createdAt && p.deviceId == n.deviceId
    && p.status == n.status && p.continuationOf == n.continuationOf && |p.parts| == |n.parts|
  }

  function TryTextAppend(p: Entry, n: Entry): Option<TextAppend> {
    if SameFrame(p, n) then Scan(n.id, p.parts, n.parts, None) else None
  }

  /** Entry `i` of `next` sits after the same neighbour as in `prev`. */
  predicate InPlace(prev: seq<Entry>, next: seq<Entry>, i: nat)
    requires i < |next|
  {
    var p := Recall(prev, next[i].id);
    p < |prev| && Before(prev, p) == Before(next, i)
  }

  /** Entry `i` is shipped as a text append. */
  predicate Appends(prev: seq<Entry>, next: seq<Entry>, i: nat)
    requires i < |next|
  {
    && InPlace(prev, next, i)
    && var p := prev[Recall(prev, next[i].id)]; p != next[i] && TryTextAppend(p, next[i]).Some?
  }

  /** Entry `i` is not re-sent: unchanged, or grown by appended text. */
  predicate Kept(prev: seq<Entry>, next: seq<Entry>, i: nat)
    requires i < |next|
  {
    InPlace(prev, next, i) && (prev[Recall(prev, next[i].id)] == next[i] || Appends(prev, next, i))
  }

  /** Upserts and appends for the entries from position `i` on. */
  function UpsertsFrom(prev: seq<Entry>, next: seq<Entry>, i: nat): seq<Upsert>
    requires i <= |next|
    decreases |next| - i
  {
    if i == |next| then []
    else (if Kept(prev, next, i) then [] else [Upsert(Before(next, i), next[i])]) + UpsertsFrom(prev, next, i + 1)
  }

  function AppendAt(prev: seq<Entry>, next: seq<Entry>, i: nat): TextAppend
    requires i < |next| && Appends(prev, next, i)
  {
    TryTextAppend(prev[Recall(prev, next[i].id)], next[i]).value
  }

  function AppendsFrom(prev: seq<Entry>, next: seq<Entry>, i: nat): seq<TextAppend>
    requires i <= |next|
    decreases |next| - i
  {
    if i == |next| then []
    else (if Appends(prev, next, i) then [AppendAt(prev, next, i)] else []) + AppendsFrom(prev, next, i + 1)
  }

  function Removals(prev: seq<Entry>, next: seq<Entry>, n: nat): seq<string>
    requires n <= |prev|
  {
    if n == 0 then []
    else Removals(prev, next, n - 1) + (if prev[n - 1].id in IdSet(next) then [] else [prev[n - 1].id])
  }

  /** A delta that touches most rows is sent as a reset. */
  predicate Resets(upserts: nat, next: seq<Entry>) {
    upserts * 2 >= (if |next| > 1 then |next| else 1) && |next| > 4
  }

  function Diff(prev: seq<Entry>, next: seq<Entry>): Frame {
    var upsert := UpsertsFrom(prev, next, 0);
    if Resets(|upsert|, next) then Reset(next)
    else Delta(upsert, AppendsFrom(prev, next, 0), Removals(prev, next, |prev|), |next|)
  }

  // ---------------------------------------------------------------------------
  // Apply

  function Without(es: seq<Entry>, gone: set<string>): seq<Entry> {
    if es == [] then [] else (if es[0].id in gone then [] else [es[0]]) + Without(es[1..], gone)
  }

  function Remove(es: seq<Entry>, i: nat): seq<Entry>
    requires i < |es|
  {
    es[..i] + es[i + 1..]
  }

  function Insert(es: seq<Entry>, i: nat, e: Entry): seq<Entry>
    requires i <= |es|
  {
    es[..i] + [e] + es[i..]
  }

  /** The list with an entry taken out, if present. */
  function TakeOut(cur: seq<Entry>, id: string): seq<Entry> {
    var x := Position(cur, id);
    if x < |cur| then Remove(cur, x) else cur
  }

  /** Right after the anchor; at the head without one. */
  function Spot(cur: seq<Entry>, after: Option<string>): (at: Option<nat>)
    ensures at.Some? ==> at.value <= |cur|
  {
    if after.None? then Some(0)
    else
      var i := Position(cur, after.value);
      if i < |cur| then Some(i + 1) else None
  }

  /** One upsert: take the entry out if present, put it right after its anchor. */
  function Place(cur: seq<Entry>, u: Upsert): Result<seq<Entry>, Desync> {
    var rest := TakeOut(cur, u.entry.id);
    var at := Spot(rest, u.after);
    if at.Some? then Ok(Insert(rest, at.value, u.entry)) else Err(MissingAnchor)
  }

  function PlaceAll(cur: seq<Entry>, us: seq<Upsert>): Result<seq<Entry>, Desync>
    decreases |us|
  {
    if us == [] then Ok(cur)
    else
      var r := Place(cur, us[0]);
      if r.Err? then r else PlaceAll(r.value, us[1..])
  }

  /** First text-bodied part with this id, or the length. */
  function BodyAt(ps: seq<Part>, id: string): (i: nat)
    ensures i <= |ps|
    ensures i < |ps| ==> TextBodied(ps[i]) && ps[i].id == id
    ensures forall j :: 0 <= j < i ==> !(TextBodied(ps[j]) && ps[j].id == id)
  {
    if ps == [] || (TextBodied(ps[0]) && ps[0].id == id) then 0 else 1 + BodyAt(ps[1..], id)
  }

  function Grow(p: Part, text: Bytes): Part
    requires TextBodied(p)
  {
    if p.Text? then Text(p.id, p.text + text) else Reasoning(p.id, p.text + text)
  }

  function AppendTo(e: Entry, a: TextAppend): Result<Entry, Desync> {
    var i := BodyAt(e.parts, a.part);
    if i == |e.parts| then Err(MissingPart)
    else
      var grown := Grow(e.parts[i], a.text);
      if |grown.text| != a.len then Err(LengthMismatch) else Ok(e.(parts := e.parts[i := grown]))
  }

  function Append(cur: seq<Entry>, a: TextAppend): Result<seq<Entry>, Desync> {
    var x := Position(cur, a.entry);
    if x == |cur| then Err(MissingEntry)
    else
      var r := AppendTo(cur[x], a);
      if r.Err? then Err(r.error) else Ok(cur[x := r.value])
  }

  function AppendAll(cur: seq<Entry>, grows: seq<TextAppend>): Result<seq<Entry>, Desync>
    decreases |grows|
  {
    if grows == [] then Ok(cur)
    else
      var r := Append(cur, grows[0]);
      if r.Err? then r else AppendAll(r.value, grows[1..])
  }

  function ApplyFrame(cur: seq<Entry>, f: Frame): Result<seq<Entry>, Desync> {
    match f
    case Reset(entries) => Ok(entries)
    case Delta(upsert, append, remove, count) =>
      var placed := PlaceAll(Without(cur, set id | id in remove), upsert);
      if placed.Err? then placed
      else
        var grown := AppendAll(placed.value, append);
        if grown.Err? then grown
        else if |grown.value| != count then Err(CountMismatch) else grown
  }

  // ---------------------------------------------------------------------------
  // The loops

  method FindTextAppend(p: Entry, n: Entry) returns (found: Option<TextAppend>)
    ensures found == TryTextAppend(p, n)
  {
    if !SameFrame(p, n) { return None; }
    found := None;
    var i := 0;
    while i < |p.parts|
      invariant 0 <= i <= |p.parts|
      invariant Scan(n.id, p.parts[i..], n.parts[i..], found) == TryTextAppend(p, n)
    {
      var a, b := p.parts[i], n.parts[i];
      assert p.parts[i..][1..] == p.parts[i + 1..] && n.parts[i..][1..] == n.parts[i + 1..];
      if a != b {
        if !Grew(a, b) || found.Some? { return None; }
        found := Some(AppendOf(n.id, a, b));
      }
      i := i + 1;
    }
  }

  /** Whether entry `i` can be left out of the upserts, and the append it then needs. */
  method Classify(prev: seq<Entry>, next: seq<Entry>, i: nat) returns (kept: bool, grown: Option<TextAppend>)
    requires i < |next|
    ensures kept <==> Kept(prev, next, i)
    ensures grown == if Appends(prev, next, i) then Some(AppendAt(prev, next, i)) else None
  {
    var at := Recall(prev, next[i].id);
    if at == |prev| || Before(prev, at) != Before(next, i) { return false, None; }
    if prev[at] == next[i] { return true, None; }
    grown := FindTextAppend(prev[at], next[i]);
    kept := grown.Some?;
  }

  lemma FromStep(prev: seq<Entry>, next: seq<Entry>, i: nat, upsert: seq<Upsert>, append: seq<TextAppend>)
    requires i < |next|
    ensures upsert + UpsertsFrom(prev, next, i) ==
            (if Kept(prev, next, i) then upsert else upsert + [Upsert(Before(next, i), next[i])]) + UpsertsFrom(prev, next, i + 1)
    ensures append + AppendsFrom(prev, next, i) ==
            (if Appends(prev, next, i) then append + [AppendAt(prev, next, i)] else append) + AppendsFrom(prev, next, i + 1)
  {}

  method ListRemovals(prev: seq<Entry>, next: seq<Entry>) returns (remove: seq<string>)
    ensures remove == Removals(prev, next, |prev|)
  {
    var nextIds := IdSet(next);
    remove := [];
    var i := 0;
    while i < |prev|
      invariant 0 <= i <= |prev|
      invariant remove == Removals(prev, next, i)
    {
      if prev[i].id !in nextIds { remove := remove + [prev[i].id]; }
      i := i + 1;
    }
  }

  method DiffTranscript(prev: seq<Entry>, next: seq<Entry>) returns (f: Frame)
    ensures f == Diff(prev, next)
  {
    var remove := ListRemovals(prev, next);
    var upsert: seq<Upsert>, append: seq<TextAppend> := [], [];
    var i := 0;
    while i < |next|
      invariant 0 <= i <= |next|
      invariant upsert + UpsertsFrom(prev, next, i) == UpsertsFrom(prev, next, 0)
      invariant append + AppendsFrom(prev, next, i) == AppendsFrom(prev, next, 0)
    {
      var kept, grown := Classify(prev, next, i);
      FromStep(prev, next, i, upsert, append);
      if kept && grown.Some? {
        append := append + [grown.value];
      } else if !kept {
        upsert := upsert + [Upsert(Before(next, i), next[i])];
      }
      i := i + 1;
    }
    if |upsert| * 2 >= (if |next| > 1 then |next| else 1) && |next| > 4 {
      return Reset(next);
    }
    f := Delta(upsert, append, remove, |next|);
  }

  /** A viewer's copy of the transcript, edited in place by frames. */
  class Viewer {
    var current: seq<Entry>

    constructor (entries: seq<Entry>)
      ensures current == entries
    {
      current := entries;
    }

    /** On an error the copy is unreliable and the viewer resubscribes. */
    method Apply(f: Frame) returns (error: Option<Desync>)
      modifies this
      ensures error.None? <==> ApplyFrame(old(current), f).Ok?
      ensures error.None? ==> ApplyFrame(old(current), f) == Ok(current)
      ensures error.Some? ==> ApplyFrame(old(current), f) == Err(error.value)
    {
      match f
      case Reset(entries) =>
        current := entries;
        error := None;
      case Delta(upsert, append, remove, count) =>
        current := Without(current, set id | id in remove);
        ghost var start := current;
        var i := 0;
        while i < |upsert|
          invariant 0 <= i <= |upsert|
          invariant PlaceAll(start, upsert) == PlaceAll(current, upsert[i..])
        {
          assert upsert[i..][1..] == upsert[i + 1..];
          var r := Place(current, upsert[i]);
          if r.Err? { return Some(r.error); }
          current := r.value;
          i := i + 1;
        }
        ghost var placed := current;
        i := 0;
        while i < |append|
          invariant 0 <= i <= |append|
          invariant AppendAll(placed, append) == AppendAll(current, append[i..])
        {
          assert append[i..][1..] == append[i + 1..];
          var r := Append(current, append[i]);
          if r.Err? { return Some(r.error); }
          current := r.value;
          i := i + 1;
        }
        if |current| != count { return Some(CountMismatch); }
        error := None;
    }
  }
}
