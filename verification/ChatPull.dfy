/**
 Catching up over plain HTTP: one response carries as many rows as fit a body cap, and the next
 pull resumes after the last row received.
 */
module ChatPull {
  import opened Wrappers
  import opened Utf8
  import opened ChatLog
  import opened ChatFrames
  import opened ChatPaging
  import opened ChatProtocol

  datatype RowHeader = RowHeader(seqNo: nat, device: string, batchId: string)

  /** The JSON codec of row headers. */
  datatype Json = Json(write: RowHeader -> Bytes, parse: Bytes -> Option<RowHeader>, isObject: Bytes -> bool)

  ghost predicate Faithful(j: Json) {
    forall h :: j.isObject(j.write(h)) && j.parse(j.write(h)) == Some(h)
  }

  function HeaderOf(n: Numbered): RowHeader {
    RowHeader(n.seqNo, n.row.device, n.row.batchId)
  }

  function RowFrame(n: Numbered, j: Json): Frame {
    Frame(ROW, j.write(HeaderOf(n)), n.row.bytes)
  }

  function RowFrames(rows: seq<Numbered>, j: Json): seq<Bytes> {
    if rows == [] then [] else [Encode(RowFrame(rows[0], j))] + RowFrames(rows[1..], j)
  }

  // ---------------------------------------------------------------------------
  // One page

  function Cost(n: Numbered, j: Json): nat {
    |Prefixed(Encode(RowFrame(n, j)))|
  }

  function Costs(j: Json): Numbered -> nat {
    (n: Numbered) => Cost(n, j)
  }

  lemma {:induction false} TotalIsBody(rows: seq<Numbered>, j: Json)
    ensures Total(rows, Costs(j)) == |Body(RowFrames(rows, j))|
  {
    if rows != [] {
      var first, rest := Encode(RowFrame(rows[0], j)), RowFrames(rows[1..], j);
      assert ([first] + rest)[1..] == rest;
      TotalIsBody(rows[1..], j);
    }
  }

  /** A page is the longest prefix of the rows whose frames fit the cap. */
  lemma PageIsLongest(rows: seq<Numbered>, j: Json)
    ensures var k := PageLen(rows, Costs(j), 0);
            && |Body(RowFrames(rows[..k], j))| <= ROWS_BODY_CAP
            && (k < |rows| ==> |Body(RowFrames(rows[..k + 1], j))| > ROWS_BODY_CAP)
  {
    var k := PageLen(rows, Costs(j), 0);
    PageFills(rows, Costs(j), 0);
    TotalIsBody(rows[..k], j);
    if k < |rows| { TotalIsBody(rows[..k + 1], j); }
  }

  /** Every row the log can hold fits, with any header a reader accepts. */
  lemma MaximalRowFits(l: Log, n: Numbered, j: Json)
    requires Sound(l) && n.seqNo in l.rows && l.rows[n.seqNo] == n.row
    requires |j.write(HeaderOf(n))| <= MAX_HEADER_BYTES
    ensures Cost(n, j) <= ROWS_BODY_CAP
  {
    EncodedParts(RowFrame(n, j));
  }

  /** The server's loop over the rows, stopping at the first frame past the cap. */
  method TakePage(rows: seq<Numbered>, j: Json) returns (frames: seq<Bytes>, truncated: bool)
    ensures frames == RowFrames(rows[..PageLen(rows, Costs(j), 0)], j)
    ensures truncated <==> PageLen(rows, Costs(j), 0) < |rows|
  {
    frames, truncated := [], false;
    var used: nat := 0;
    var i := 0;
    assert rows[0..] == rows;
    while i < |rows|
      invariant 0 <= i <= |rows| && frames == RowFrames(rows[..i], j)
      invariant PageLen(rows, Costs(j), 0) == i + PageLen(rows[i..], Costs(j), used)
    {
      var frame := Encode(RowFrame(rows[i], j));
      PageLenStep(rows, Costs(j), i, used);
      assert Costs(j)(rows[i]) == 4 + |frame|;
      used := used + 4 + |frame|;
      if used > ROWS_BODY_CAP { return frames, true; }
      RowFramesSnoc(rows[..i], rows[i], j);
      assert rows[..i + 1] == rows[..i] + [rows[i]];
      frames := frames + [frame];
      i := i + 1;
    }
  }

  lemma {:induction false} RowFramesSnoc(rows: seq<Numbered>, n: Numbered, j: Json)
    ensures RowFrames(rows + [n], j) == RowFrames(rows, j) + [Encode(RowFrame(n, j))]
  {
    if rows == [] {
      assert rows + [n] == [n] && [n][1..] == [];
    } else {
      assert (rows + [n])[1..] == rows[1..] + [n];
      RowFramesSnoc(rows[1..], n, j);
    }
  }

  // ---------------------------------------------------------------------------
  // The whole response and the client's reading of it

  function PageFrames(rows: seq<Numbered>, j: Json, state: Frame, done: Frame): seq<Bytes> {
    var k := PageLen(rows, Costs(j), 0);
    [Encode(state)] + RowFrames(rows[..k], j) + (if k < |rows| then [] else [Encode(done)])
  }

  method ServeRows(l: Log, after: nat, exclude: string, j: Json, state: Frame, done: Frame) returns (buffer: array<byte>)
    ensures buffer[..] == Body(PageFrames(RowsAfter(l, after, exclude), j, state, done))
  {
    var rows := RowsAfter(l, after, exclude);
    var frames, truncated := TakePage(rows, j);
    frames := [Encode(state)] + frames;
    if !truncated { frames := frames + [Encode(done)]; }
    assert frames == PageFrames(rows, j, state, done);
    buffer := WriteBody(frames);
  }

  /** Frames that do not decode are skipped. */
  function DecodeAll(bs: seq<Bytes>, j: Json): seq<Frame> {
    if bs == [] then []
    else (var f := ClientDecode(bs[0], j.isObject); if f.Some? then [f.value] else []) + DecodeAll(bs[1..], j)
  }

  function RowOf(f: Frame, j: Json): seq<Numbered> {
    var h := j.parse(f.header);
    if f.kind == ROW && h.Some? then [Numbered(h.value.seqNo, LogRow(h.value.device, h.value.batchId, f.payload))] else []
  }

  function RowsOf(fs: seq<Frame>, j: Json): seq<Numbered> {
    if fs == [] then [] else RowOf(fs[0], j) + RowsOf(fs[1..], j)
  }

  /** The first frame read is the state; rows follow. */
  function ReadRows(body: Bytes, j: Json): seq<Numbered> {
    var fs := DecodeAll(Unframe(body), j);
    if fs == [] then [] else RowsOf(fs[1..], j)
  }

  /** The header is one a reader accepts. */
  predicate Readable(n: Numbered, j: Json) {
    |j.write(HeaderOf(n))| <= MAX_HEADER_BYTES
  }

  function Readables(j: Json): Numbered -> bool {
    (n: Numbered) => Readable(n, j)
  }

  /** A control frame both ends agree on. */
  ghost predicate Control(f: Frame, j: Json) {
    f.kind != ROW && |f.header| <= MAX_HEADER_BYTES && j.isObject(f.header) && |f.payload| < TWO32 / 2
  }

  /** A client reads from a row frame exactly the row sent, or nothing when its header is too long. */
  lemma RowFrameRead(n: Numbered, j: Json)
    requires Faithful(j) && Cost(n, j) <= ROWS_BODY_CAP
    ensures var f := ClientDecode(Encode(RowFrame(n, j)), j.isObject);
            if Readable(n, j) then f == Some(RowFrame(n, j)) && RowOf(f.value, j) == [n] else f == None
  {
    var f := RowFrame(n, j);
    var h := HeaderOf(n);
    assert j.isObject(j.write(h)) && j.parse(j.write(h)) == Some(h);
    FrameRoundTrip(f, j.isObject, (kind: byte) => true);
    EncodedParts(f);
  }

  lemma {:induction false} DecodeConcat(a: seq<Bytes>, b: seq<Bytes>, j: Json)
    ensures DecodeAll(a + b, j) == DecodeAll(a, j) + DecodeAll(b, j)
  {
    if a == [] {
      assert a + b == b;
    } else {
      assert (a + b)[0] == a[0] && (a + b)[1..] == a[1..] + b;
      DecodeConcat(a[1..], b, j);
    }
  }

  lemma {:induction false} RowsConcat(a: seq<Frame>, b: seq<Frame>, j: Json)
    ensures RowsOf(a + b, j) == RowsOf(a, j) + RowsOf(b, j)
  {
    if a == [] {
      assert a + b == b;
    } else {
      assert (a + b)[0] == a[0] && (a + b)[1..] == a[1..] + b;
      RowsConcat(a[1..], b, j);
    }
  }

  lemma OneRowRead(n: Numbered, j: Json)
    requires Faithful(j) && Cost(n, j) <= ROWS_BODY_CAP
    ensures RowsOf(DecodeAll([Encode(RowFrame(n, j))], j), j) == if Readable(n, j) then [n] else []
  {
    RowFrameRead(n, j);
    var bs := [Encode(RowFrame(n, j))];
    assert bs[1..] == [];
    if Readable(n, j) {
      assert DecodeAll(bs, j) == [RowFrame(n, j)] + [];
      assert [RowFrame(n, j)][1..] == [];
    } else {
      assert DecodeAll(bs, j) == [] + [];
    }
  }

  lemma {:induction false} PageReads(rows: seq<Numbered>, j: Json)
    requires Faithful(j) && forall n :: n in rows ==> Cost(n, j) <= ROWS_BODY_CAP
    ensures RowsOf(DecodeAll(RowFrames(rows, j), j), j) == Passing(rows, Readables(j))
    decreases |rows|
  {
    if rows != [] {
      var first, rest := [Encode(RowFrame(rows[0], j))], RowFrames(rows[1..], j);
      PageReads(rows[1..], j);
      OneRowRead(rows[0], j);
      DecodeConcat(first, rest, j);
      RowsConcat(DecodeAll(first, j), DecodeAll(rest, j), j);
    }
  }

  lemma {:induction false} RowFramesShort(rows: seq<Numbered>, j: Json)
    requires forall n :: n in rows ==> Cost(n, j) <= ROWS_BODY_CAP
    ensures Short(RowFrames(rows, j))
    decreases |rows|
  {
    if rows != [] {
      assert Cost(rows[0], j) == 4 + |Encode(RowFrame(rows[0], j))|;
      RowFramesShort(rows[1..], j);
    }
  }

  lemma ControlRead(f: Frame, j: Json)
    requires Control(f, j)
    ensures ClientDecode(Encode(f), j.isObject) == Some(f) && RowOf(f, j) == [] && |Encode(f)| < TWO32
  {
    FrameRoundTrip(f, j.isObject, (kind: byte) => true);
    EncodedParts(f);
  }

  /** What follows the rows: the end mark, unless the page was truncated. */
  function EndFrames(rows: seq<Numbered>, j: Json, done: Frame): seq<Bytes> {
    if PageLen(rows, Costs(j), 0) < |rows| then [] else [Encode(done)]
  }

  /** A response, decoded. */
  lemma PageDecodes(rows: seq<Numbered>, j: Json, state: Frame, done: Frame)
    requires Faithful(j) && Control(state, j) && Control(done, j)
    ensures DecodeAll(Unframe(Body(PageFrames(rows, j, state, done))), j)
         == [state] + (DecodeAll(RowFrames(Page(rows, Costs(j)), j), j) + DecodeAll(EndFrames(rows, j, done), j))
    ensures forall n :: n in Page(rows, Costs(j)) ==> Cost(n, j) <= ROWS_BODY_CAP
  {
    var page, tail := Page(rows, Costs(j)), EndFrames(rows, j, done);
    forall n | n in page ensures Cost(n, j) <= ROWS_BODY_CAP { PageRowsFit(rows, Costs(j), 0, n); }
    RowFramesShort(page, j);
    ControlRead(state, j);
    ControlRead(done, j);
    var all := PageFrames(rows, j, state, done);
    assert all == [Encode(state)] + (RowFrames(page, j) + tail);
    BodyRoundTrip(all);
    assert all[1..] == RowFrames(page, j) + tail;
    DecodeConcat(RowFrames(page, j), tail, j);
  }

  /** What a client reads from a response is the page, in order, less the rows whose headers no
      reader accepts. */
  lemma PageArrives(rows: seq<Numbered>, j: Json, state: Frame, done: Frame)
    requires Faithful(j) && Control(state, j) && Control(done, j)
    ensures ReadRows(Body(PageFrames(rows, j, state, done)), j) == Passing(Page(rows, Costs(j)), Readables(j))
  {
    var frames, end := DecodeAll(RowFrames(Page(rows, Costs(j)), j), j), DecodeAll(EndFrames(rows, j, done), j);
    PageDecodes(rows, j, state, done);
    assert ([state] + (frames + end))[1..] == frames + end;
    RowsConcat(frames, end, j);
    PageReads(Page(rows, Costs(j)), j);
    TailReadsNothing(EndFrames(rows, j, done), done, j);
  }

  lemma TailReadsNothing(tail: seq<Bytes>, done: Frame, j: Json)
    requires Control(done, j) && (tail == [] || tail == [Encode(done)])
    ensures RowsOf(DecodeAll(tail, j), j) == []
  {
    ControlRead(done, j);
    if tail != [] {
      assert tail[1..] == [];
      assert DecodeAll(tail, j) == [done] + [];
      assert RowsOf([done], j) == RowOf(done, j) + RowsOf([done][1..], j);
    }
  }

  lemma {:induction false} RowFramesDecode(rows: seq<Numbered>, j: Json, f: Frame)
    requires Faithful(j) && (forall n :: n in rows ==> Cost(n, j) <= ROWS_BODY_CAP) && f.kind != ROW
    ensures f !in DecodeAll(RowFrames(rows, j), j)
    decreases |rows|
  {
    if rows != [] {
      RowFramesDecode(rows[1..], j, f);
      RowFrameRead(rows[0], j);
    }
  }

  /** The client sees the end mark exactly when the response carries all the rows. */
  lemma EndMarkIffWhole(rows: seq<Numbered>, j: Json, state: Frame, done: Frame)
    requires Faithful(j) && Control(state, j) && Control(done, j) && state != done
    ensures done in DecodeAll(Unframe(Body(PageFrames(rows, j, state, done))), j) <==> Page(rows, Costs(j)) == rows
  {
    PageDecodes(rows, j, state, done);
    RowFramesDecode(Page(rows, Costs(j)), j, done);
    EndMarkAlone(EndFrames(rows, j, done), done, j);
    assert PageLen(rows, Costs(j), 0) < |rows| ==> |Page(rows, Costs(j))| < |rows|;
  }

  lemma EndMarkAlone(tail: seq<Bytes>, done: Frame, j: Json)
    requires Control(done, j) && (tail == [] || tail == [Encode(done)])
    ensures done in DecodeAll(tail, j) <==> tail != []
  {
    ControlRead(done, j);
    if tail != [] {
      assert tail[1..] == [];
      assert DecodeAll(tail, j) == [done] + [];
    }
  }

  // ---------------------------------------------------------------------------
  // Repeated pulls

  /** Where the plan of a client that holds the checkpoint puts its cursor. */
  function Begin(l: Log, cursor: nat): nat {
    PlanCatchUp(cursor, l, true).after
  }

  /** What one pull from `cursor` brings a client: the rows it can read from the response. */
  function PullOnce(l: Log, cursor: nat, j: Json, state: Frame, done: Frame): seq<Numbered> {
    ReadRows(Body(PageFrames(RowsAfter(l, cursor, ""), j, state, done)), j)
  }

  function Puller(l: Log, j: Json, state: Frame, done: Frame): nat -> seq<Numbered> {
    (cursor: nat) => PullOnce(l, cursor, j, state, done)
  }

  /** What a client at `cursor` gets from a log by pulling for as long as that gets it anywhere. */
  function Drain(l: Log, cursor: nat, j: Json, state: Frame, done: Frame): Pulled {
    PullAll(Puller(l, j, state, done), Begin(l, cursor), l.head)
  }

  ghost predicate Wired(j: Json, state: Frame, done: Frame) {
    Faithful(j) && Control(state, j) && Control(done, j)
  }

  lemma {:induction false} RowsFromConsecutive(l: Log, s: nat)
    requires Sound(l) && l.floor < s
    ensures Consecutive(RowsFrom(l, s, ""), s - 1)
    decreases if s <= l.head then l.head + 1 - s else 0
  {
    if s <= l.head { RowsFromConsecutive(l, s + 1); }
  }

  lemma {:induction false} NoRowsBelowFloor(l: Log, s: nat)
    requires Sound(l) && s <= l.floor + 1
    ensures RowsFrom(l, s, "") == RowsFrom(l, l.floor + 1, "")
    decreases l.floor + 1 - s
  {
    if s <= l.floor { NoRowsBelowFloor(l, s + 1); }
  }

  lemma {:induction false} RowsFromCount(l: Log, s: nat)
    requires Sound(l) && l.floor < s <= l.head + 1
    ensures |RowsFrom(l, s, "")| == l.head + 1 - s
    decreases l.head + 1 - s
  {
    if s <= l.head { RowsFromCount(l, s + 1); }
  }

  /** The rows above a cursor are consecutive from where the client begins, up to the head. */
  lemma RowsAbove(l: Log, cursor: nat)
    requires Sound(l) && cursor <= l.head
    ensures RowsAfter(l, cursor, "") == RowsAfter(l, Begin(l, cursor), "")
    ensures Consecutive(RowsAfter(l, cursor, ""), Begin(l, cursor))
    ensures Begin(l, cursor) + |RowsAfter(l, cursor, "")| == l.head
  {
    var s := Begin(l, cursor);
    if cursor < l.floor { NoRowsBelowFloor(l, cursor + 1); }
    RowsFromConsecutive(l, s + 1);
    RowsFromCount(l, s + 1);
  }

  /** Resuming after a row leaves exactly the rows behind it. */
  lemma {:induction false} ResumeAfter(l: Log, s: nat, exclude: string, k: nat)
    requires 0 < k <= |RowsFrom(l, s, exclude)|
    ensures var rows := RowsFrom(l, s, exclude); RowsFrom(l, rows[k - 1].seqNo + 1, exclude) == rows[k..]
    decreases if s <= l.head then l.head + 1 - s else 0
  {
    if s in l.rows && Shown(l.rows[s], exclude) {
      if k > 1 { ResumeAfter(l, s + 1, exclude, k - 1); }
    } else {
      ResumeAfter(l, s + 1, exclude, k);
    }
  }

  lemma RowsAhead(l: Log, cursor: nat, t: nat)
    requires Sound(l) && cursor <= l.head && t <= |RowsAfter(l, cursor, "")|
    ensures RowsAfter(l, Begin(l, cursor) + t, "") == RowsAfter(l, cursor, "")[t..]
  {
    RowsAbove(l, cursor);
    var rows := RowsAfter(l, cursor, "");
    if t > 0 {
      ResumeAfter(l, cursor + 1, "", t);
      assert rows[t - 1].seqNo == Begin(l, cursor) + t;
    } else {
      assert rows[0..] == rows;
    }
  }

  lemma LogRowsFit(l: Log, cursor: nat, j: Json)
    requires Sound(l)
    ensures Fits(RowsAfter(l, cursor, ""), Costs(j), Readables(j))
  {
    forall n | n in RowsAfter(l, cursor, "") && Readable(n, j) ensures Cost(n, j) <= ROWS_BODY_CAP {
      RowsFromAre(l, cursor + 1, "", n);
      MaximalRowFits(l, n, j);
    }
  }

  lemma PullReads(l: Log, cursor: nat, t: nat, j: Json, state: Frame, done: Frame)
    requires Sound(l) && cursor <= l.head && Wired(j, state, done) && t <= |RowsAfter(l, cursor, "")|
    ensures At(Puller(l, j, state, done), Begin(l, cursor), t)
         == Passing(Page(RowsAfter(l, cursor, "")[t..], Costs(j)), Readables(j))
  {
    RowsAhead(l, cursor, t);
    PageArrives(RowsAfter(l, cursor, "")[t..], j, state, done);
  }

  lemma PullsServe(l: Log, cursor: nat, j: Json, state: Frame, done: Frame)
    requires Sound(l) && cursor <= l.head && Wired(j, state, done)
    ensures Serves(Puller(l, j, state, done), RowsAfter(l, cursor, ""), Begin(l, cursor), Costs(j), Readables(j))
  {
    forall i: nat | i <= |RowsAfter(l, cursor, "")|
      ensures At(Puller(l, j, state, done), Begin(l, cursor), i)
           == Passing(Page(RowsAfter(l, cursor, "")[i..], Costs(j)), Readables(j))
    {
      PullReads(l, cursor, i, j, state, done);
    }
  }

  /** What the client gets, and where its cursor ends. */
  lemma DrainArrives(l: Log, cursor: nat, j: Json, state: Frame, done: Frame)
    requires Sound(l) && cursor <= l.head && Wired(j, state, done)
    ensures var rows, d := RowsAfter(l, cursor, ""), Drain(l, cursor, j, state, done);
            Arrives(rows, d.rows, Costs(j), Readables(j)) && d.cursor == Begin(l, cursor) + Lead(rows, Readables(j))
  {
    RowsAbove(l, cursor);
    LogRowsFit(l, cursor, j);
    PullsServe(l, cursor, j, state, done);
    PullsArrive(Puller(l, j, state, done), RowsAfter(l, cursor, ""), Begin(l, cursor), l.head, Costs(j), Readables(j));
  }

  /** A row that cannot be read is nowhere in what arrives. */
  lemma UnreadableIsMissing(rows: seq<Numbered>, got: seq<Numbered>, cost: Numbered -> nat, ok: Numbered -> bool)
    requires Arrives(rows, got, cost, ok) && Lead(rows, ok) < |rows|
    ensures rows[Lead(rows, ok)] !in got
  {
    var m := Lead(rows, ok);
    PassingMember(Page(rows[m..], cost), ok, rows[m]);
    assert forall n :: n in rows[..m] ==> ok(n);
  }

  /** Repeated pulls end. They bring the client every row above its cursor, once and in order, if and
      only if it can read every row's header; its cursor is then the head. */
  lemma PullsDeliver(l: Log, cursor: nat, j: Json, state: Frame, done: Frame)
    requires Sound(l) && cursor <= l.head && Wired(j, state, done)
    ensures var rows := RowsAfter(l, cursor, "");
            && Ascending(rows)
            && (Drain(l, cursor, j, state, done).rows == rows <==> forall n :: n in rows ==> Readable(n, j))
  {
    var rows := RowsAfter(l, cursor, "");
    RowsFromSorted(l, cursor + 1, "");
    DrainArrives(l, cursor, j, state, done);
    var m := Lead(rows, Readables(j));
    if m < |rows| {
      assert rows[m] in rows && !Readable(rows[m], j);
      UnreadableIsMissing(rows, Drain(l, cursor, j, state, done).rows, Costs(j), Readables(j));
    } else {
      forall n | n in rows ensures Readable(n, j) {
        var i :| 0 <= i < |rows| && rows[i] == n;
        assert Readables(j)(rows[i]);
      }
    }
  }

  /** Otherwise the client stops for good right before the first row it cannot read: it has what came
      before, and what it can read of the one page that starts at that row, and nothing else. */
  lemma PullsStopAtUnreadable(l: Log, cursor: nat, j: Json, state: Frame, done: Frame)
    requires Sound(l) && cursor <= l.head && Wired(j, state, done)
    requires Lead(RowsAfter(l, cursor, ""), Readables(j)) < |RowsAfter(l, cursor, "")|
    ensures var rows, d := RowsAfter(l, cursor, ""), Drain(l, cursor, j, state, done);
            var m := Lead(rows, Readables(j));
            && d.cursor + 1 == rows[m].seqNo && rows[..m] <= d.rows && rows[m] !in d.rows
            && forall n :: n in d.rows <==> n in rows[..m] || n in Passing(Page(rows[m..], Costs(j)), Readables(j))
  {
    var rows := RowsAfter(l, cursor, "");
    DrainArrives(l, cursor, j, state, done);
    RowsAbove(l, cursor);
    UnreadableIsMissing(rows, Drain(l, cursor, j, state, done).rows, Costs(j), Readables(j));
  }
}
