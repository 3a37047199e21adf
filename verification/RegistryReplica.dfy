/**
 The client side of the registry: the authoritative rows with their cursor, and the
 queue of local batches that have not been acknowledged.
 */
module RegistryReplica {
  import opened Wrappers
  import opened Hlc
  import opened RegistryMerge
  import opened RegistryRoom
  import opened RegistryRecovery

  /** A batch is named by the device and the clock tick that minted it. */
  datatype BatchId = BatchId(tick: Stamp, device: string)

  datatype Batch = Batch(id: BatchId, ops: seq<Op>, inFlight: bool)

  /** Server truth as this replica knows it. */
  datatype View = View(auth: Table, cursor: nat)

  // ---------------------------------------------------------------------------
  // Server frames

  /** A broadcast applies its rows; the cursor moves only to the very next seq. */
  function AfterRows(v: View, n: nat, rows: Table): View {
    View(v.auth + rows, if n == v.cursor + 1 then n else v.cursor)
  }

  /** A hello answer: a delta and a server that lost state overlay, a full state replaces. */
  function AfterState(v: View, n: nat, full: bool, rows: Table): View {
    View(if full && n >= v.cursor then rows else v.auth + rows, n)
  }

  datatype StateOutcome = Delta | Replaced | Reseeded

  // ---------------------------------------------------------------------------
  // Batches

  const MAX_OPS_PER_BATCH := 400

  /** Ops cut into batches the server accepts. */
  function Chunks(ops: seq<Op>): seq<seq<Op>> {
    if ops == [] then []
    else if |ops| <= MAX_OPS_PER_BATCH then [ops]
    else [ops[..MAX_OPS_PER_BATCH]] + Chunks(ops[MAX_OPS_PER_BATCH..])
  }

  function Flatten(chunks: seq<seq<Op>>): seq<Op> {
    if chunks == [] then [] else chunks[0] + Flatten(chunks[1..])
  }

  /** Every batch has 1 to 400 ops, under the server's cap, and the batches in order are the ops. */
  lemma {:induction false} ChunksAreBatches(ops: seq<Op>)
    ensures Flatten(Chunks(ops)) == ops
    ensures forall c :: c in Chunks(ops) ==> 1 <= |c| <= MAX_OPS_PER_BATCH < MAX_BATCH_OPS
  {
    if |ops| > MAX_OPS_PER_BATCH {
      ChunksAreBatches(ops[MAX_OPS_PER_BATCH..]);
      assert ops == ops[..MAX_OPS_PER_BATCH] + ops[MAX_OPS_PER_BATCH..];
    } else if ops != [] {
      assert [ops][1..] == [];
      assert Flatten([ops]) == ops + Flatten([]);
    }
  }

  /** Only the last batch is short. */
  lemma {:induction false} ChunksAreFull(ops: seq<Op>, i: nat)
    requires i + 1 < |Chunks(ops)|
    ensures |Chunks(ops)[i]| == MAX_OPS_PER_BATCH
  {
    if i > 0 { ChunksAreFull(ops[MAX_OPS_PER_BATCH..], i - 1); }
  }

  function OpLists(bs: seq<Batch>): seq<seq<Op>> {
    seq(|bs|, i requires 0 <= i < |bs| => bs[i].ops)
  }

  /** The id on the wire. */
  function Wire(id: BatchId): string {
    "b-" + Encode(id.tick, id.device)
  }

  /** Comparing ids on the wire is comparing ticks and devices. */
  lemma WireInjective(a: BatchId, b: BatchId)
    requires Wire(a) == Wire(b)
    ensures a == b
  {
    assert Wire(a)[2..] == Encode(a.tick, a.device) && Wire(b)[2..] == Encode(b.tick, b.device);
    EncodeInjective(a.tick, a.device, b.tick, b.device);
  }

  predicate StampLeq(a: Stamp, b: Stamp) {
    a == b || StampLess(a, b)
  }

  /** Batches are named by strictly increasing ticks in (`from`, `to`]. */
  ghost predicate Minted(device: string, from: Stamp, to: Stamp, bs: seq<Batch>) {
    && (forall i :: 0 <= i < |bs| ==> bs[i].id.device == device && StampLess(from, bs[i].id.tick) && StampLeq(bs[i].id.tick, to))
    && (forall i, j :: 0 <= i < j < |bs| ==> StampLess(bs[i].id.tick, bs[j].id.tick))
  }

  /** No two minted batches share an id, on the wire either. */
  lemma MintedIdsDistinct(device: string, from: Stamp, to: Stamp, bs: seq<Batch>, i: nat, j: nat)
    requires Minted(device, from, to, bs) && i < j < |bs|
    ensures bs[i].id != bs[j].id && Wire(bs[i].id) != Wire(bs[j].id)
  {
    if Wire(bs[i].id) == Wire(bs[j].id) { WireInjective(bs[i].id, bs[j].id); }
  }

  lemma MintedInjective(device: string, from: Stamp, to: Stamp, bs: seq<Batch>, i: nat, j: nat)
    requires Minted(device, from, to, bs) && i < |bs| && j < |bs| && bs[i].id == bs[j].id
    ensures i == j
  {}

  /** Everything minted after a moment differs from everything minted up to it, so all the ids a
      device ever mints are distinct. */
  lemma LaterIdsAreFresh(device: string, from: Stamp, now: Stamp, to: Stamp, bs: seq<Batch>, cs: seq<Batch>)
    requires Minted(device, from, now, bs) && Minted(device, now, to, cs)
    requires StampLeq(from, now) && StampLeq(now, to)
    ensures Minted(device, from, to, bs + cs)
    ensures forall i, j :: 0 <= i < |bs| && 0 <= j < |cs| ==> bs[i].id != cs[j].id
  {
    var all := bs + cs;
    forall i, j | 0 <= i < j < |all| ensures StampLess(all[i].id.tick, all[j].id.tick) {
      assert i < |bs| ==> all[i] == bs[i];
      assert j >= |bs| ==> all[j] == cs[j - |bs|];
      assert i >= |bs| ==> all[i] == cs[i - |bs|];
    }
  }

  lemma OneMoreBatch(device: string, from: Stamp, bs: seq<Batch>, b: Batch)
    requires forall i :: 0 <= i < |bs| ==> StampLess(bs[i].id.tick, b.id.tick)
    requires StampLess(from, b.id.tick) && b.id.device == device
    requires Minted(device, from, b.id.tick, bs)
    ensures Minted(device, from, b.id.tick, bs + [b])
    ensures OpLists(bs + [b]) == OpLists(bs) + [b.ops]
  {}

  lemma MintedExtends(device: string, from: Stamp, now: Stamp, to: Stamp, bs: seq<Batch>)
    requires Minted(device, from, now, bs) && StampLess(now, to)
    ensures Minted(device, from, to, bs)
    ensures forall i :: 0 <= i < |bs| ==> StampLess(bs[i].id.tick, to)
  {}

  function Retire(bs: seq<Batch>, id: BatchId): seq<Batch> {
    if bs == [] then []
    else (if bs[0].id == id then [] else [bs[0]]) + Retire(bs[1..], id)
  }

  lemma {:induction false} RetireAbsent(bs: seq<Batch>, id: BatchId)
    requires forall b :: b in bs ==> b.id != id
    ensures Retire(bs, id) == bs
  {
    if bs != [] {
      assert bs[0] in bs;
      RetireAbsent(bs[1..], id);
      assert bs == [bs[0]] + bs[1..];
    }
  }

  lemma {:induction false} RetireConcat(a: seq<Batch>, b: seq<Batch>, id: BatchId)
    ensures Retire(a + b, id) == Retire(a, id) + Retire(b, id)
  {
    if a == [] {
      assert a + b == b;
    } else {
      assert (a + b)[0] == a[0] && (a + b)[1..] == a[1..] + b;
      RetireConcat(a[1..], b, id);
    }
  }

  /** An ack retires exactly one batch and leaves the others in order. */
  lemma RetireExactlyOne(device: string, from: Stamp, to: Stamp, bs: seq<Batch>, i: nat)
    requires Minted(device, from, to, bs) && i < |bs|
    ensures Retire(bs, bs[i].id) == bs[..i] + bs[i + 1..]
  {
    var id := bs[i].id;
    forall j | 0 <= j < |bs| && j != i ensures bs[j].id != id {
      assert j < i ==> StampLess(bs[j].id.tick, bs[i].id.tick);
      assert i < j ==> StampLess(bs[i].id.tick, bs[j].id.tick);
    }
    RetireAt(bs, i);
  }

  lemma RetireAt(bs: seq<Batch>, i: nat)
    requires i < |bs| && forall j :: 0 <= j < |bs| && j != i ==> bs[j].id != bs[i].id
    ensures Retire(bs, bs[i].id) == bs[..i] + bs[i + 1..]
  {
    var a, b, z := bs[..i], bs[i], bs[i + 1..];
    assert bs == a + ([b] + z);
    forall x | x in a || x in z ensures x.id != b.id {
      if x in a { var j :| 0 <= j < i && bs[j] == x; }
    }
    RetireMiddle(a, b, z);
  }

  lemma RetireMiddle(a: seq<Batch>, b: Batch, z: seq<Batch>)
    requires forall x :: x in a || x in z ==> x.id != b.id
    ensures Retire(a + ([b] + z), b.id) == a + z
  {
    RetireConcat(a, [b] + z, b.id);
    assert ([b] + z)[1..] == z;
    RetireAbsent(a, b.id);
    RetireAbsent(z, b.id);
  }

  // ---------------------------------------------------------------------------
  // The overlay

  /** The queued ops that concern one row, in order. */
  function QueuedOn(bs: seq<Batch>, k: Key): seq<Op> {
    if bs == [] then [] else OpsOn(bs[0].ops, k) + QueuedOn(bs[1..], k)
  }

  /** The row as this device shows it: server truth with the queue replayed over it. */
  function Overlay(auth: Table, bs: seq<Batch>, k: Key): Option<Row> {
    var r := Run(Get(auth, k), QueuedOn(bs, k));
    if IsLive(r) then r else None
  }

  lemma {:induction false} OpsOnConcat(a: seq<Op>, b: seq<Op>, k: Key)
    ensures OpsOn(a + b, k) == OpsOn(a, k) + OpsOn(b, k)
  {
    if a == [] {
      assert a + b == b;
    } else {
      assert (a + b)[0] == a[0] && (a + b)[1..] == a[1..] + b;
      OpsOnConcat(a[1..], b, k);
    }
  }

  lemma {:induction false} QueuedOnConcat(a: seq<Batch>, b: seq<Batch>, k: Key)
    ensures QueuedOn(a + b, k) == QueuedOn(a, k) + QueuedOn(b, k)
  {
    if a == [] {
      assert a + b == b;
    } else {
      assert (a + b)[0] == a[0] && (a + b)[1..] == a[1..] + b;
      QueuedOnConcat(a[1..], b, k);
    }
  }

  // ---------------------------------------------------------------------------
  // The document

  class RegistryDoc {
    const device: string
    var auth: Table
    var serverSeq: nat
    var gcFloor: nat
    const clock: HlcClock
    var pending: seq<Batch>

    ghost predicate Valid()
      reads this, clock
    {
      clock.Valid() && Minted(device, Stamp(0, 0), clock.Now(), pending) && Keyed(auth)
    }

    function Seen(): View
      reads this
    {
      View(auth, serverSeq)
    }

    constructor (device: string)
      ensures Valid() && fresh(clock) && this.device == device
      ensures Seen() == View(map[], 0) && pending == []
    {
      this.device := device;
      auth, serverSeq, gcFloor, pending := map[], 0, 0, [];
      clock := new HlcClock();
    }

    /** Put rows into the table under their own keys; `put_authoritative` for each. */
    method PutRows(rows: seq<Row>)
      modifies this`auth
      ensures auth == old(auth) + AsTable(rows)
    {
      var i := 0;
      while i < |rows|
        invariant 0 <= i <= |rows|
        invariant auth == old(auth) + AsTable(rows[..i])
      {
        auth := auth[rows[i].key := rows[i]];
        assert rows[..i + 1][..i] == rows[..i];
        i := i + 1;
      }
      assert rows[..i] == rows;
    }

    /** One broadcast.  False reports a gap: the rows are fresh but the cursor holds. */
    method ApplyRows(n: nat, rows: seq<Row>) returns (contiguous: bool)
      requires Valid()
      modifies this`auth, this`serverSeq
      ensures Valid() && Seen() == AfterRows(old(Seen()), n, AsTable(rows))
      ensures contiguous <==> n <= old(serverSeq) + 1
    {
      AsTableKeyed(rows);
      PutRows(rows);
      if n > serverSeq + 1 { return false; }
      if n > serverSeq { serverSeq := n; }
      contiguous := true;
    }

    /** One hello answer. After a full answer the queue grows by the seed of each row that the answer
        lacks, or of every row when the server is behind the cursor, and by nothing else. */
    method ApplyState(n: nat, full: bool, floor: nat, rows: seq<Row>) returns (out: StateOutcome)
      requires Valid()
      modifies this, clock
      ensures Valid() && Seen() == AfterState(old(Seen()), n, full, AsTable(rows)) && gcFloor == floor
      ensures |pending| >= |old(pending)| && pending[..|old(pending)|] == old(pending)
      ensures forall k :: k in old(auth) && full && (n < old(serverSeq) || k !in AsTable(rows)) ==>
                SeededOn(pending[|old(pending)|..], old(auth)[k])
      ensures forall k :: !(k in old(auth) && full && (n < old(serverSeq) || k !in AsTable(rows))) ==>
                QueuedOn(pending[|old(pending)|..], k) == []
      ensures out.Delta? <==> !full
      ensures out.Replaced? <==> full && n >= old(serverSeq) && old(auth).Keys <= AsTable(rows).Keys
      ensures StampLeq(old(clock.Now()), clock.Now())
    {
      ghost var queue := pending;
      var mine := auth;
      AsTableKeyed(rows);
      var keys: set<Key>;
      if !full {
        keys := {};
        PutRows(rows);
        out := Delta;
      } else if n < serverSeq {
        keys := auth.Keys;
        out := Reseeded;
        PutRows(rows);
      } else {
        var incoming := TableOf(rows);
        keys := auth.Keys - incoming.Keys;
        out := if keys == {} then Replaced else Reseeded;
        auth := incoming;
      }
      serverSeq := n;
      gcFloor := floor;
      var ops := SeedAll(mine, keys);
      EnqueueOps(ops);
      QueueHoldsSeeds(mine, keys, ops, pending[|queue|..]);
    }

    /** Retire an acknowledged batch; the cursor does not move. */
    method AckBatch(id: BatchId) returns (existed: bool)
      requires Valid()
      modifies this`pending
      ensures Valid() && pending == Retire(old(pending), id)
      ensures existed <==> exists b :: b in old(pending) && b.id == id
    {
      RetireKeepsMinted(device, Stamp(0, 0), clock.Now(), pending, id);
      var kept;
      kept, existed := Retain(pending, id);
      pending := kept;
    }

    /** Batches to push: everything not already in flight on this connection. */
    method TakePushable() returns (out: seq<Batch>)
      requires Valid()
      modifies this`pending
      ensures Valid()
      ensures pending == MarkAll(old(pending), true)
      ensures out == Unsent(old(pending))
    {
      var queue;
      queue, out := SendAll(pending);
      pending := queue;
    }

    /** The connection dropped: everything unacknowledged becomes pushable again. */
    method MarkDisconnected()
      requires Valid()
      modifies this`pending
      ensures Valid() && pending == MarkAll(old(pending), false)
    {
      var queue := ClearAll(pending);
      pending := queue;
    }

    /** A fresh batch id: the next tick of the clock. */
    method MintId(now: int) returns (id: BatchId)
      requires clock.Valid()
      modifies clock
      ensures clock.Valid() && id == BatchId(clock.Now(), device) && StampLess(old(clock.Now()), clock.Now())
    {
      var hlc := clock.Next(now, device);
      id := BatchId(Stamp(clock.lastMs, clock.counter), device);
      assert Wire(id) == "b-" + hlc;
    }

    /** Queue ops in batches of at most 400, each named by a fresh tick. */
    method EnqueueOps(ops: seq<Op>)
      requires Valid()
      modifies this`pending, clock
      ensures Valid() && Appended(device, old(clock.Now()), clock.Now(), old(pending), pending, Chunks(ops))
    {
      var rest := ops;
      var added: seq<Batch> := [];
      ghost var start := clock.Now();
      while rest != []
        invariant clock.Valid() && StampLeq(start, clock.Now())
        invariant Minted(device, start, clock.Now(), added)
        invariant pending == old(pending)
        invariant OpLists(added) + Chunks(rest) == Chunks(ops)
        invariant forall b :: b in added ==> !b.inFlight
        decreases |rest|
      {
        var head := if |rest| > MAX_OPS_PER_BATCH then rest[..MAX_OPS_PER_BATCH] else rest;
        var tail := if |rest| > MAX_OPS_PER_BATCH then rest[MAX_OPS_PER_BATCH..] else [];
        assert Chunks(rest) == [head] + Chunks(tail);
        var now: int := *;
        ghost var before := clock.Now();
        var id := MintId(now);
        MintedExtends(device, start, before, clock.Now(), added);
        var batch := Batch(id, head, false);
        OneMoreBatch(device, start, added, batch);
        added := added + [batch];
        rest := tail;
      }
      LaterIdsAreFresh(device, Stamp(0, 0), start, clock.Now(), pending, added);
      pending := pending + added;
    }

    /** The row as this device should display it. */
    method OverlayRow(k: Key) returns (row: Option<Row>)
      ensures row == Overlay(auth, pending, k)
    {
      row := Get(auth, k);
      var i := 0;
      while i < |pending|
        invariant 0 <= i <= |pending|
        invariant Run(row, QueuedOn(pending[i..], k)) == Run(Get(auth, k), QueuedOn(pending, k))
      {
        assert pending[i..][1..] == pending[i + 1..];
        RunConcat(row, OpsOn(pending[i].ops, k), QueuedOn(pending[i + 1..], k));
        row := RunOn(row, pending[i].ops, k);
        i := i + 1;
      }
      if row.Some? && row.value.deleted { row := None; }
    }
  }

  /** The ops of a list that concern row `k`, applied in order. */
  method RunOn(start: Option<Row>, ops: seq<Op>, k: Key) returns (row: Option<Row>)
    ensures row == Run(start, OpsOn(ops, k))
  {
    row := start;
    var j := 0;
    while j < |ops|
      invariant 0 <= j <= |ops|
      invariant Run(row, OpsOn(ops[j..], k)) == Run(start, OpsOn(ops, k))
    {
      assert ops[j..][1..] == ops[j + 1..];
      if ops[j].key == k {
        assert OpsOn(ops[j..], k)[1..] == OpsOn(ops[j + 1..], k);
        var next, _ := ApplyOp(row, ops[j]);
        if next.Some? { row := next; }
      } else {
        assert OpsOn(ops[j..], k) == OpsOn(ops[j + 1..], k);
      }
      j := j + 1;
    }
  }

  method Retain(bs: seq<Batch>, id: BatchId) returns (kept: seq<Batch>, existed: bool)
    ensures kept == Retire(bs, id)
    ensures existed <==> exists b :: b in bs && b.id == id
  {
    kept, existed := [], false;
    var i := 0;
    while i < |bs|
      invariant 0 <= i <= |bs|
      invariant kept == Retire(bs[..i], id)
      invariant existed <==> exists b :: b in bs[..i] && b.id == id
    {
      assert bs[..i + 1] == bs[..i] + [bs[i]];
      RetireSnoc(bs[..i], bs[i], id);
      if bs[i].id == id { existed := true; } else { kept := kept + [bs[i]]; }
      i := i + 1;
    }
    assert bs[..i] == bs;
  }

  lemma RetireSnoc(bs: seq<Batch>, b: Batch, id: BatchId)
    ensures Retire(bs + [b], id) == Retire(bs, id) + (if b.id == id then [] else [b])
  {
    RetireConcat(bs, [b], id);
    assert [b][1..] == [];
  }

  lemma {:induction false} RetireKeepsMinted(device: string, from: Stamp, to: Stamp, bs: seq<Batch>, id: BatchId)
    requires Minted(device, from, to, bs)
    ensures Minted(device, from, to, Retire(bs, id))
    ensures forall b :: b in Retire(bs, id) ==> b in bs
  {
    if bs != [] {
      var rest := Retire(bs[1..], id);
      RetireKeepsMinted(device, from, to, bs[1..], id);
      forall j | 0 <= j < |rest| ensures StampLess(bs[0].id.tick, rest[j].id.tick) {
        assert rest[j] in bs[1..];
      }
    }
  }

  method SendAll(bs: seq<Batch>) returns (queue: seq<Batch>, out: seq<Batch>)
    ensures queue == MarkAll(bs, true) && out == Unsent(bs)
  {
    queue, out := bs, [];
    var i := 0;
    while i < |bs|
      invariant 0 <= i <= |bs| == |queue|
      invariant queue == MarkAll(bs[..i], true) + bs[i..]
      invariant out == Unsent(bs[..i])
    {
      MarkStep(bs, true, i);
      UnsentStep(bs, i);
      if !queue[i].inFlight {
        queue := queue[i := queue[i].(inFlight := true)];
        out := out + [queue[i]];
      }
      i := i + 1;
    }
    assert bs[..i] == bs;
  }

  method ClearAll(bs: seq<Batch>) returns (queue: seq<Batch>)
    ensures queue == MarkAll(bs, false)
  {
    queue := bs;
    var i := 0;
    while i < |bs|
      invariant 0 <= i <= |bs| == |queue|
      invariant queue == MarkAll(bs[..i], false) + bs[i..]
    {
      MarkStep(bs, false, i);
      queue := queue[i := queue[i].(inFlight := false)];
      i := i + 1;
    }
    assert bs[..i] == bs;
  }

  lemma MarkStep(bs: seq<Batch>, flag: bool, i: nat)
    requires i < |bs|
    ensures var half := MarkAll(bs[..i], flag) + bs[i..];
            half[i] == bs[i] && half[i := bs[i].(inFlight := flag)] == MarkAll(bs[..i + 1], flag) + bs[i + 1..]
    ensures bs[i].inFlight == flag ==> MarkAll(bs[..i], flag) + bs[i..] == MarkAll(bs[..i + 1], flag) + bs[i + 1..]
  {}

  /** What is taken to push is exactly what was not in flight, marked. */
  lemma {:induction false} UnsentAre(bs: seq<Batch>, b: Batch)
    ensures b in Unsent(bs) <==> b.inFlight && b.(inFlight := false) in bs
  {
    if bs != [] { UnsentAre(bs[..|bs| - 1], b); }
  }

  /** Nothing is taken twice on one connection, and after a disconnect everything is taken again, in order. */
  lemma {:induction false} TakenOncePerConnection(bs: seq<Batch>)
    ensures Unsent(MarkAll(bs, true)) == [] && Unsent(MarkAll(bs, false)) == MarkAll(bs, true)
  {
    if bs != [] {
      var init := bs[..|bs| - 1];
      TakenOncePerConnection(init);
      assert MarkAll(bs, true)[..|bs| - 1] == MarkAll(init, true) && MarkAll(bs, false)[..|bs| - 1] == MarkAll(init, false);
    }
  }

  lemma UnsentStep(bs: seq<Batch>, i: nat)
    requires i < |bs|
    ensures Unsent(bs[..i + 1]) == Unsent(bs[..i]) + (if bs[i].inFlight then [] else [bs[i].(inFlight := true)])
  {
    assert bs[..i + 1][..i] == bs[..i];
  }

  function MarkAll(bs: seq<Batch>, flag: bool): seq<Batch> {
    seq(|bs|, i requires 0 <= i < |bs| => bs[i].(inFlight := flag))
  }

  /** The queue grew by fresh batches holding `chunks`. */
  ghost predicate Appended(device: string, from: Stamp, to: Stamp, before: seq<Batch>, after: seq<Batch>, chunks: seq<seq<Op>>) {
    && StampLeq(from, to)
    && |after| >= |before| && after[..|before|] == before
    && OpLists(after[|before|..]) == chunks
    && Minted(device, from, to, after[|before|..])
    && forall b :: b in after[|before|..] ==> !b.inFlight
  }

  function Unsent(bs: seq<Batch>): seq<Batch> {
    if bs == [] then []
    else
      var last := bs[|bs| - 1];
      Unsent(bs[..|bs| - 1]) + (if last.inFlight then [] else [last.(inFlight := true)])
  }

  /** The queue holds, for this row's key, the seed of the row and nothing else. */
  ghost predicate SeededOn(bs: seq<Batch>, row: Row) {
    exists op :: IsSeedOf(op, row) && QueuedOn(bs, row.key) == [op]
  }

  /** The same of a list of ops. */
  ghost predicate SeedIn(ops: seq<Op>, row: Row) {
    exists op :: IsSeedOf(op, row) && OpsOn(ops, row.key) == [op]
  }

  lemma {:induction false} QueuedIsFlat(bs: seq<Batch>, k: Key)
    ensures QueuedOn(bs, k) == OpsOn(Flatten(OpLists(bs)), k)
  {
    if bs != [] {
      QueuedIsFlat(bs[1..], k);
      assert OpLists(bs)[1..] == OpLists(bs[1..]);
      OpsOnConcat(bs[0].ops, Flatten(OpLists(bs[1..])), k);
    }
  }

  lemma QueueHoldsSeeds(auth: Table, keys: set<Key>, ops: seq<Op>, added: seq<Batch>)
    requires Keyed(auth) && keys <= auth.Keys && OpLists(added) == Chunks(ops)
    requires forall k :: k in keys ==> SeedIn(ops, auth[k])
    requires forall k :: k !in keys ==> OpsOn(ops, k) == []
    ensures forall k :: k in keys ==> SeededOn(added, auth[k])
    ensures forall k :: k !in keys ==> QueuedOn(added, k) == []
  {
    ChunksAreBatches(ops);
    forall k ensures QueuedOn(added, k) == OpsOn(ops, k) { QueuedIsFlat(added, k); }
  }

  method TableOf(rows: seq<Row>) returns (t: Table)
    ensures t == AsTable(rows)
  {
    t := map[];
    var i := 0;
    while i < |rows|
      invariant 0 <= i <= |rows|
      invariant t == AsTable(rows[..i])
    {
      t := t[rows[i].key := rows[i]];
      assert rows[..i + 1][..i] == rows[..i];
      i := i + 1;
    }
    assert rows[..i] == rows;
  }

  lemma OpsOnSnoc(ops: seq<Op>, op: Op, k: Key)
    ensures OpsOn(ops + [op], k) == OpsOn(ops, k) + (if op.key == k then [op] else [])
  {
    OpsOnConcat(ops, [op], k);
    assert [op][1..] == [];
  }

  /** One seed for each of the keys, of the row held under it. */
  method SeedAll(auth: Table, keys: set<Key>) returns (ops: seq<Op>)
    requires Keyed(auth) && keys <= auth.Keys
    ensures forall k :: k in keys ==> SeedIn(ops, auth[k])
    ensures forall k :: k !in keys ==> OpsOn(ops, k) == []
  {
    ops := [];
    var todo := keys;
    while todo != {}
      invariant todo <= keys
      invariant forall k :: k in keys && k !in todo ==> SeedIn(ops, auth[k])
      invariant forall k :: k !in keys || k in todo ==> OpsOn(ops, k) == []
      decreases |todo|
    {
      var k :| k in todo;
      var op := RowToSeedOp(auth[k]);
      assert op.key == k;
      forall x ensures OpsOn(ops + [op], x) == OpsOn(ops, x) + (if x == k then [op] else []) { OpsOnSnoc(ops, op, x); }
      SeedGoesIn(auth, ops, op, k);
      todo, ops := todo - {k}, ops + [op];
    }
  }

  lemma SeedGoesIn(auth: Table, ops: seq<Op>, op: Op, k: Key)
    requires Keyed(auth) && k in auth && IsSeedOf(op, auth[k]) && OpsOn(ops, k) == []
    ensures SeedIn(ops + [op], auth[k])
    ensures forall x :: x in auth && x != k && SeedIn(ops, auth[x]) ==> SeedIn(ops + [op], auth[x])
  {
    OpsOnSnoc(ops, op, k);
    assert [] + [op] == [op];
    forall x | x in auth && x != k && SeedIn(ops, auth[x]) ensures SeedIn(ops + [op], auth[x]) {
      OpsOnSnoc(ops, op, x);
      assert OpsOn(ops, x) + [] == OpsOn(ops, x);
    }
  }
}
