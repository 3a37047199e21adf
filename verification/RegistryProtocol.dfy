/**
 The registry protocol: one server, any number of replicas, and per replica one lossy
 in-order connection.  Frames may be lost, connections dropped, replicas restarted from
 an old snapshot, and tombstones purged, in any interleaving.

 The result is cursor integrity: a replica's cursor never passes a row it does not hold.
 */
module RegistryProtocol {
  import opened Wrappers
  import opened Hlc
  import opened RegistryMerge
  import opened RegistryRoom
  import opened RegistryReplica

  datatype Frame =
    | State(seqNo: nat, full: bool, gcFloor: nat, rows: Table)
    | Rows(seqNo: nat, rows: Table)
    | Ack(batch: BatchId)

  function Receive(v: View, f: Frame): View {
    match f
    case State(n, full, _, rows) => AfterState(v, n, full, rows)
    case Rows(n, rows) => AfterRows(v, n, rows)
    case Ack(_) => v
  }

  datatype Connection = Down | Up(frames: seq<Frame>)

  /** A replica with its clock, its connection, and the snapshot a restart would load. */
  datatype Node = Node(view: View, pending: seq<Batch>, conn: Connection, disk: View, diskPending: seq<Batch>,
                       device: string, clock: Stamp, diskClock: Stamp)

  /** The ops a batch id stood for when the server applied it. */
  datatype Receipt = Receipt(id: BatchId, ops: seq<Op>)

  /** `accepted` records the batches the server has applied. */
  datatype System = System(server: Server, nodes: seq<Node>, accepted: set<Receipt>)

  const ZERO := Stamp(0, 0)

  predicate Initial(s: System) {
    && s.server == Server(map[], 0, 0)
    && s.accepted == {}
    && forall i :: 0 <= i < |s.nodes| ==> s.nodes[i] == Node(View(map[], 0), [], Down, View(map[], 0), [], s.nodes[i].device, ZERO, ZERO)
  }

  // ---------------------------------------------------------------------------
  // Steps

  function Enqueue(c: Connection, fs: seq<Frame>): Connection {
    if c.Up? then Up(c.frames + fs) else Down
  }

  /** Merged rows go to every ready socket, the sender included, before its ack. */
  function Broadcast(server: Server, ops: seq<Op>): seq<Frame> {
    var t := TouchedBy(server, ops);
    if t == map[] then [] else [Rows(server.seqNo + 1, t)]
  }

  function AfterBroadcast(nodes: seq<Node>, fs: seq<Frame>): seq<Node> {
    seq(|nodes|, i requires 0 <= i < |nodes| => nodes[i].(conn := Enqueue(nodes[i].conn, fs)))
  }

  function HelloAnswer(server: Server, cursor: Option<nat>): Frame {
    var full := NeedsFull(server, cursor);
    State(server.seqNo, full, server.gcFloor, if full then server.rows else Since(server.rows, cursor.value))
  }

  datatype Step =
    | LocalWrite(i: nat, added: seq<Batch>, to: Stamp)   // a replica queues batches, its clock moving to `to`
    | PushArrives(i: nat, j: nat)                    // the server applies a queued batch and acks it
    | ForeignPush(ops: seq<Op>)                      // any other batch: a duplicate, another client, a late frame
    | Deliver(i: nat, seeds: seq<Batch>, to: Stamp)  // the next frame reaches its replica, which may queue seeds
    | Lose(i: nat)                                   // the next frame is lost
    | Disconnect(i: nat)
    | Hello(i: nat, known: bool)                     // a new connection; `known` sends the cursor
    | Purge(horizon: Clock, floor: nat)              // tombstone garbage collection
    | Save(i: nat)                                   // the replica writes its snapshot
    | Restart(i: nat, resync: bool)                  // and comes back from it, possibly zeroing the cursor

  predicate HasFrame(s: System, i: nat) {
    i < |s.nodes| && s.nodes[i].conn.Up? && s.nodes[i].conn.frames != []
  }

  /** Batches queued by a replica are named by ticks of its own clock. */
  ghost predicate Mints(n: Node, added: seq<Batch>, to: Stamp) {
    StampLeq(n.clock, to) && Minted(n.device, n.clock, to, added)
  }

  ghost predicate Enabled(s: System, t: Step) {
    match t
    case LocalWrite(i, added, to) => i < |s.nodes| && Mints(s.nodes[i], added, to)
    case PushArrives(i, j) => i < |s.nodes| && j < |s.nodes[i].pending|
    case ForeignPush(_) => true
    case Deliver(i, seeds, to) => HasFrame(s, i) && Mints(s.nodes[i], seeds, to)
    case Lose(i) => HasFrame(s, i)
    case Disconnect(i) => i < |s.nodes|
    case Hello(i, _) => i < |s.nodes|
    case Purge(h, floor) => Purged(s.server, h, Server(s.server.rows - Purgeable(s.server, h), s.server.seqNo, floor))
    case Save(i) => i < |s.nodes|
    case Restart(i, _) => i < |s.nodes|
  }

  ghost function Next(s: System, t: Step): System
    requires Enabled(s, t)
  {
    match t
    case LocalWrite(i, added, to) =>
      var n := s.nodes[i];
      s.(nodes := s.nodes[i := n.(pending := n.pending + added, clock := to)])
    case PushArrives(i, j) =>
      var b := s.nodes[i].pending[j];
      var nodes := AfterBroadcast(s.nodes, Broadcast(s.server, b.ops));
      System(Push(s.server, b.ops), nodes[i := nodes[i].(conn := Enqueue(nodes[i].conn, [Ack(b.id)]))], s.accepted + {Receipt(b.id, b.ops)})
    case ForeignPush(ops) =>
      System(Push(s.server, ops), AfterBroadcast(s.nodes, Broadcast(s.server, ops)), s.accepted)
    case Deliver(i, seeds, to) =>
      var n := s.nodes[i];
      var f := n.conn.frames[0];
      var pending := if f.Ack? then Retire(n.pending, f.batch) else if f.State? then n.pending + seeds else n.pending;
      var clock := if f.State? then to else n.clock;
      s.(nodes := s.nodes[i := n.(view := Receive(n.view, f), pending := pending, conn := Up(n.conn.frames[1..]), clock := clock)])
    case Lose(i) =>
      var n := s.nodes[i];
      s.(nodes := s.nodes[i := n.(conn := Up(n.conn.frames[1..]))])
    case Disconnect(i) =>
      var n := s.nodes[i];
      s.(nodes := s.nodes[i := n.(pending := MarkAll(n.pending, false), conn := Down)])
    case Hello(i, known) =>
      var n := s.nodes[i];
      var answer := HelloAnswer(s.server, if known then Some(n.view.cursor) else None);
      s.(nodes := s.nodes[i := n.(conn := Up([answer]))])
    case Purge(h, floor) =>
      s.(server := Server(s.server.rows - Purgeable(s.server, h), s.server.seqNo, floor))
    case Save(i) =>
      var n := s.nodes[i];
      s.(nodes := s.nodes[i := n.(disk := n.view, diskPending := n.pending, diskClock := n.clock)])
    case Restart(i, resync) =>
      var n := s.nodes[i];
      var view := if resync then n.disk.(cursor := 0) else n.disk;
      s.(nodes := s.nodes[i := n.(view := view, pending := MarkAll(n.diskPending, false), conn := Down, clock := n.diskClock)])
  }

  ghost predicate Run(s: System, ts: seq<Step>)
    decreases |ts|
  {
    ts == [] || (Enabled(s, ts[0]) && Run(Next(s, ts[0]), ts[1..]))
  }

  ghost function End(s: System, ts: seq<Step>): System
    requires Run(s, ts)
    decreases |ts|
  {
    if ts == [] then s else End(Next(s, ts[0]), ts[1..])
  }

  // ---------------------------------------------------------------------------
  // The invariant

  /** The server's rows up to the cursor are the replica's rows, and a live row the server no
      longer has is one whose purged tombstone lies past the cursor. */
  ghost predicate Good(s: Server, v: View) {
    && v.cursor <= s.seqNo
    && (forall k :: k in s.rows && s.rows[k].seqNo <= v.cursor ==> k in v.auth && v.auth[k] == s.rows[k])
    && (forall k :: k in v.auth && !v.auth[k].deleted && k !in s.rows ==> v.cursor < s.gcFloor)
  }

  /** The view stays good whichever of the frames in flight arrive. */
  ghost predicate ChannelGood(s: Server, v: View, frames: seq<Frame>)
    decreases |frames|
  {
    && Good(s, v)
    && (frames != [] ==> ChannelGood(s, v, frames[1..]) && ChannelGood(s, Receive(v, frames[0]), frames[1..]))
  }

  function InFlight(n: Node): seq<Frame> {
    if n.conn.Up? then n.conn.frames else []
  }

  ghost predicate NodeGood(s: System, n: Node) {
    && ChannelGood(s.server, n.view, InFlight(n))
    && Good(s.server, n.disk)
  }

  ghost predicate Inv(s: System) {
    && Sound(s.server)
    && forall i :: 0 <= i < |s.nodes| ==> NodeGood(s, s.nodes[i])
  }

  // ---------------------------------------------------------------------------
  // What each step keeps

  lemma PushKeepsGood(s: Server, ops: seq<Op>, v: View)
    requires Sound(s) && Good(s, v)
    ensures Good(Push(s, ops), v)
    ensures TouchedBy(s, ops) != map[] ==> Good(Push(s, ops), AfterRows(v, s.seqNo + 1, TouchedBy(s, ops)))
  {
    PushSound(s, ops);
    var t := TouchedBy(s, ops);
    if t != map[] { BroadcastKeepsGood(s, t, v); }
  }

  /** Rows stamped past every cursor do not disturb a view, and keep it good once they land. */
  lemma BroadcastKeepsGood(s: Server, t: Table, v: View)
    requires Sound(s) && Good(s, v) && Stamped(t, s.seqNo + 1)
    ensures var s' := Server(s.rows + t, s.seqNo + 1, s.gcFloor);
            Good(s', v) && Good(s', AfterRows(v, s.seqNo + 1, t))
  {}

  lemma {:induction false} PushKeepsChannel(s: Server, ops: seq<Op>, v: View, frames: seq<Frame>)
    requires Sound(s) && ChannelGood(s, v, frames)
    ensures ChannelGood(Push(s, ops), v, frames + Broadcast(s, ops))
    decreases |frames|
  {
    PushKeepsGood(s, ops, v);
    var b := Broadcast(s, ops);
    if frames != [] {
      PushKeepsChannel(s, ops, v, frames[1..]);
      PushKeepsChannel(s, ops, Receive(v, frames[0]), frames[1..]);
      assert (frames + b)[0] == frames[0] && (frames + b)[1..] == frames[1..] + b;
    } else {
      assert frames + b == b;
      assert b != [] ==> b[1..] == [];
    }
  }

  lemma PurgeKeepsGood(s: Server, h: Clock, s': Server, v: View)
    requires Sound(s) && Good(s, v) && Purged(s, h, s')
    ensures Good(s', v)
  {}

  lemma {:induction false} PurgeKeepsChannel(s: Server, h: Clock, s': Server, v: View, frames: seq<Frame>)
    requires Sound(s) && ChannelGood(s, v, frames) && Purged(s, h, s')
    ensures ChannelGood(s', v, frames)
    decreases |frames|
  {
    PurgeKeepsGood(s, h, s', v);
    if frames != [] {
      PurgeKeepsChannel(s, h, s', v, frames[1..]);
      PurgeKeepsChannel(s, h, s', Receive(v, frames[0]), frames[1..]);
    }
  }

  lemma {:induction false} AckKeepsChannel(s: Server, v: View, frames: seq<Frame>, id: BatchId)
    requires ChannelGood(s, v, frames)
    ensures ChannelGood(s, v, frames + [Ack(id)])
    decreases |frames|
  {
    var b := [Ack(id)];
    if frames != [] {
      AckKeepsChannel(s, v, frames[1..], id);
      AckKeepsChannel(s, Receive(v, frames[0]), frames[1..], id);
      assert (frames + b)[0] == frames[0] && (frames + b)[1..] == frames[1..] + b;
    } else {
      assert frames + b == b && b[1..] == [];
    }
  }

  /** Whatever the hello sends, the answer brings the view level with the server. */
  lemma HelloAnswerGood(s: Server, v: View, known: bool)
    requires Sound(s) && Good(s, v)
    ensures var after := Receive(v, HelloAnswer(s, if known then Some(v.cursor) else None));
            Good(s, after) && after.cursor == s.seqNo
  {}

  /** What a hello is answered with: all rows when the cursor is absent, ahead of the server or behind
      the purge floor, and otherwise the rows above the cursor and no others. */
  lemma HelloSendsExactly(s: Server, cursor: Option<nat>, k: Key)
    requires Sound(s)
    ensures var f := HelloAnswer(s, cursor);
            && f.seqNo == s.seqNo && f.gcFloor == s.gcFloor
            && (!f.full <==> cursor.Some? && s.gcFloor <= cursor.value <= s.seqNo)
            && (k in f.rows <==> k in s.rows && (f.full || s.rows[k].seqNo > cursor.value))
            && (k in f.rows ==> f.rows[k] == s.rows[k])
  {}

  lemma ResyncKeepsGood(s: Server, v: View)
    requires Sound(s) && Good(s, v)
    ensures Good(s, v.(cursor := 0))
  {}

  lemma HelloKeepsChannel(s: Server, v: View, known: bool)
    requires Sound(s) && Good(s, v)
    ensures ChannelGood(s, v, [HelloAnswer(s, if known then Some(v.cursor) else None)])
  {
    var fs := [HelloAnswer(s, if known then Some(v.cursor) else None)];
    HelloAnswerGood(s, v, known);
    assert fs[1..] == [];
  }

  lemma BroadcastKeepsNode(s: System, ops: seq<Op>, n: Node, s': System)
    requires Sound(s.server) && NodeGood(s, n)
    requires s'.server == Push(s.server, ops)
    ensures NodeGood(s', n.(conn := Enqueue(n.conn, Broadcast(s.server, ops))))
  {
    PushKeepsGood(s.server, ops, n.disk);
    PushKeepsChannel(s.server, ops, n.view, InFlight(n));
    if n.conn.Down? { PushKeepsGood(s.server, ops, n.view); }
  }

  lemma AckKeepsNode(s: System, n: Node, id: BatchId)
    requires NodeGood(s, n)
    ensures NodeGood(s, n.(conn := Enqueue(n.conn, [Ack(id)])))
  {
    AckKeepsChannel(s.server, n.view, InFlight(n), id);
  }

  /** Changing one node leaves the others good. */
  lemma OneNode(s: System, i: nat, n: Node)
    requires Inv(s) && i < |s.nodes| && NodeGood(s, n)
    ensures Inv(s.(nodes := s.nodes[i := n]))
  {
    var s' := s.(nodes := s.nodes[i := n]);
    forall j | 0 <= j < |s'.nodes| ensures NodeGood(s', s'.nodes[j]) {
      assert NodeGood(s, if j == i then n else s.nodes[j]);
    }
  }

  lemma ForeignPushKeeps(s: System, ops: seq<Op>, accepted: set<Receipt>)
    requires Inv(s)
    ensures Inv(System(Push(s.server, ops), AfterBroadcast(s.nodes, Broadcast(s.server, ops)), accepted))
  {
    var s' := System(Push(s.server, ops), AfterBroadcast(s.nodes, Broadcast(s.server, ops)), accepted);
    PushSound(s.server, ops);
    forall j | 0 <= j < |s'.nodes| ensures NodeGood(s', s'.nodes[j]) {
      BroadcastKeepsNode(s, ops, s.nodes[j], s');
    }
  }

  lemma DeliverKeeps(s: System, t: Step)
    requires Inv(s) && Enabled(s, t) && (t.Deliver? || t.Lose?)
    ensures Inv(Next(s, t))
  {
    assert NodeGood(s, s.nodes[t.i]);
    OneNode(s, t.i, Next(s, t).nodes[t.i]);
  }

  lemma PurgeKeeps(s: System, h: Clock, floor: nat)
    requires Inv(s) && Enabled(s, Purge(h, floor))
    ensures Inv(Next(s, Purge(h, floor)))
  {
    var s' := Next(s, Purge(h, floor));
    forall j | 0 <= j < |s'.nodes| ensures NodeGood(s', s'.nodes[j]) {
      assert NodeGood(s, s.nodes[j]);
      PurgeKeepsChannel(s.server, h, s'.server, s.nodes[j].view, InFlight(s.nodes[j]));
      PurgeKeepsGood(s.server, h, s'.server, s.nodes[j].disk);
    }
  }

  lemma StepKeepsInv(s: System, t: Step)
    requires Inv(s) && Enabled(s, t)
    ensures Inv(Next(s, t))
  {
    match t
    case PushArrives(i, j) =>
      var b := s.nodes[i].pending[j];
      var accepted := s.accepted + {Receipt(b.id, b.ops)};
      ForeignPushKeeps(s, b.ops, accepted);
      var mid := System(Push(s.server, b.ops), AfterBroadcast(s.nodes, Broadcast(s.server, b.ops)), accepted);
      AckKeepsNode(mid, mid.nodes[i], b.id);
      OneNode(mid, i, Next(s, t).nodes[i]);
    case ForeignPush(ops) => ForeignPushKeeps(s, ops, s.accepted);
    case Deliver(_, _, _) => DeliverKeeps(s, t);
    case Lose(_) => DeliverKeeps(s, t);
    case Hello(i, known) =>
      assert NodeGood(s, s.nodes[i]);
      HelloKeepsChannel(s.server, s.nodes[i].view, known);
      OneNode(s, i, Next(s, t).nodes[i]);
    case Purge(h, floor) => PurgeKeeps(s, h, floor);
    case Restart(i, resync) =>
      assert NodeGood(s, s.nodes[i]);
      ResyncKeepsGood(s.server, s.nodes[i].disk);
      OneNode(s, i, Next(s, t).nodes[i]);
    case LocalWrite(i, _, _) => assert NodeGood(s, s.nodes[i]); OneNode(s, i, Next(s, t).nodes[i]);
    case Disconnect(i) => assert NodeGood(s, s.nodes[i]); OneNode(s, i, Next(s, t).nodes[i]);
    case Save(i) => assert NodeGood(s, s.nodes[i]); OneNode(s, i, Next(s, t).nodes[i]);
  }

  lemma InitialInv(s: System)
    requires Initial(s)
    ensures Inv(s)
  {}

  lemma {:induction false} RunKeepsInv(s: System, ts: seq<Step>)
    requires Inv(s) && Run(s, ts)
    ensures Inv(End(s, ts))
    decreases |ts|
  {
    if ts != [] {
      StepKeepsInv(s, ts[0]);
      RunKeepsInv(Next(s, ts[0]), ts[1..]);
    }
  }

  // ---------------------------------------------------------------------------
  // Results over every run

  function LiveRows(t: Table): Table {
    map k | k in t && !t[k].deleted :: t[k]
  }

  /** In every run, every server row at or below a replica's cursor is the replica's row. */
  lemma CursorIntegrity(s: System, ts: seq<Step>, i: nat, k: Key)
    requires Initial(s) && Run(s, ts) && i < |End(s, ts).nodes|
    ensures var e := End(s, ts);
            var v := e.nodes[i].view;
            && v.cursor <= e.server.seqNo
            && (k in e.server.rows && e.server.rows[k].seqNo <= v.cursor ==> Get(v.auth, k) == Some(e.server.rows[k]))
  {
    InitialInv(s);
    RunKeepsInv(s, ts);
    assert NodeGood(End(s, ts), End(s, ts).nodes[i]);
  }

  /** In every run, a replica level with the server shows exactly the server's live rows. */
  lemma CaughtUpMeansEqual(s: System, ts: seq<Step>, i: nat)
    requires Initial(s) && Run(s, ts) && i < |End(s, ts).nodes|
    requires End(s, ts).nodes[i].view.cursor == End(s, ts).server.seqNo
    ensures LiveRows(End(s, ts).nodes[i].view.auth) == LiveRows(End(s, ts).server.rows)
  {
    InitialInv(s);
    RunKeepsInv(s, ts);
    var e := End(s, ts);
    assert NodeGood(e, e.nodes[i]);
    LevelMeansEqual(e.server, e.nodes[i].view);
  }

  lemma LevelMeansEqual(s: Server, v: View)
    requires Sound(s) && Good(s, v) && v.cursor == s.seqNo
    ensures LiveRows(v.auth) == LiveRows(s.rows)
  {}

  /** From any reachable state, one reconnect whose answer arrives makes a replica exact. */
  lemma ReconnectHeals(s: System, ts: seq<Step>, i: nat, known: bool, seeds: seq<Batch>, to: Stamp)
    requires Initial(s) && Run(s, ts) && i < |End(s, ts).nodes| && Mints(End(s, ts).nodes[i], seeds, to)
    ensures var e := End(s, ts);
            var hello := Next(e, Hello(i, known));
            && Enabled(hello, Deliver(i, seeds, to))
            && var healed := Next(hello, Deliver(i, seeds, to));
               healed.nodes[i].view.cursor == healed.server.seqNo &&
               LiveRows(healed.nodes[i].view.auth) == LiveRows(healed.server.rows)
  {
    InitialInv(s);
    RunKeepsInv(s, ts);
    var e := End(s, ts);
    assert NodeGood(e, e.nodes[i]);
    HelloAnswerGood(e.server, e.nodes[i].view, known);
    var healed := Next(Next(e, Hello(i, known)), Deliver(i, seeds, to));
    LevelMeansEqual(healed.server, healed.nodes[i].view);
  }

  /** A connected replica that is level with the server, and has nothing else in flight, is level
      again as soon as a push's broadcast reaches it. */
  lemma LiveReplicaStaysLevel(s: System, ts: seq<Step>, i: nat, ops: seq<Op>, to: Stamp)
    requires Initial(s) && Run(s, ts) && i < |End(s, ts).nodes|
    requires End(s, ts).nodes[i].conn == Up([]) && End(s, ts).nodes[i].view.cursor == End(s, ts).server.seqNo
    requires Mints(End(s, ts).nodes[i], [], to) && TouchedBy(End(s, ts).server, ops) != map[]
    ensures var pushed := Next(End(s, ts), ForeignPush(ops));
            && Enabled(pushed, Deliver(i, [], to))
            && var e := Next(pushed, Deliver(i, [], to));
               e.nodes[i].view.cursor == e.server.seqNo && LiveRows(e.nodes[i].view.auth) == LiveRows(e.server.rows)
  {
    InitialInv(s);
    RunKeepsInv(s, ts);
    var e0 := End(s, ts);
    assert NodeGood(e0, e0.nodes[i]);
    PushKeepsGood(e0.server, ops, e0.nodes[i].view);
    PushSound(e0.server, ops);
    var e := Next(Next(e0, ForeignPush(ops)), Deliver(i, [], to));
    LevelMeansEqual(e.server, e.nodes[i].view);
  }

  // ---------------------------------------------------------------------------
  // Queues

  /** Queued batches carry distinct ids of the replica's own clock, and an ack in flight stands for
      the ops that are queued under its id. */
  ghost predicate QueueGood(accepted: set<Receipt>, n: Node) {
    && StampLeq(ZERO, n.clock) && Minted(n.device, ZERO, n.clock, n.pending)
    && StampLeq(ZERO, n.diskClock) && Minted(n.device, ZERO, n.diskClock, n.diskPending)
    && forall f :: f in InFlight(n) && f.Ack? ==> AckGood(accepted, n, f.batch)
  }

  ghost predicate AckGood(accepted: set<Receipt>, n: Node, id: BatchId) {
    && StampLeq(id.tick, n.clock)
    && forall b :: b in n.pending && b.id == id ==> Receipt(b.id, b.ops) in accepted
  }

  ghost predicate QueuesGood(s: System) {
    forall i :: 0 <= i < |s.nodes| ==> QueueGood(s.accepted, s.nodes[i])
  }

  /** New ids are later than every id in the queue or on the wire. */
  lemma QueueGrows(accepted: set<Receipt>, n: Node, added: seq<Batch>, to: Stamp)
    requires QueueGood(accepted, n) && Mints(n, added, to)
    ensures QueueGood(accepted, n.(pending := n.pending + added, clock := to))
  {
    var n' := n.(pending := n.pending + added, clock := to);
    LaterIdsAreFresh(n.device, ZERO, n.clock, to, n.pending, added);
    assert forall b :: b in added ==> StampLess(n.clock, b.id.tick);
    forall f | f in InFlight(n) && f.Ack? ensures AckGood(accepted, n', f.batch) {
      assert AckGood(accepted, n, f.batch);
    }
  }

  lemma QueueAcked(accepted: set<Receipt>, n: Node, j: nat)
    requires QueueGood(accepted, n) && j < |n.pending|
    requires Receipt(n.pending[j].id, n.pending[j].ops) in accepted
    ensures QueueGood(accepted, n.(conn := Enqueue(n.conn, [Ack(n.pending[j].id)])))
  {
    var b := n.pending[j];
    var n' := n.(conn := Enqueue(n.conn, [Ack(b.id)]));
    forall c | c in n.pending && c.id == b.id ensures c == b {
      var i :| 0 <= i < |n.pending| && n.pending[i] == c;
      MintedInjective(n.device, ZERO, n.clock, n.pending, i, j);
    }
    forall f | f in InFlight(n') && f.Ack? ensures AckGood(accepted, n', f.batch) {
      if f.batch != b.id { assert f in InFlight(n); assert AckGood(accepted, n, f.batch); }
    }
  }

  lemma QueueRetires(accepted: set<Receipt>, n: Node, id: BatchId)
    requires QueueGood(accepted, n)
    ensures QueueGood(accepted, n.(pending := Retire(n.pending, id)))
  {
    RetireKeepsMinted(n.device, ZERO, n.clock, n.pending, id);
    var n' := n.(pending := Retire(n.pending, id));
    forall f | f in InFlight(n) && f.Ack? ensures AckGood(accepted, n', f.batch) { assert AckGood(accepted, n, f.batch); }
  }

  /** More accepted batches, and frames gone or added other than acks, keep a queue good. */
  lemma QueueKept(accepted: set<Receipt>, accepted': set<Receipt>, n: Node, n': Node)
    requires QueueGood(accepted, n) && accepted <= accepted'
    requires n' == n.(conn := n'.conn, view := n'.view)
    requires forall f :: f in InFlight(n') && f.Ack? ==> f in InFlight(n)
    ensures QueueGood(accepted', n')
  {
    forall f | f in InFlight(n') && f.Ack? ensures AckGood(accepted', n', f.batch) { assert AckGood(accepted, n, f.batch); }
  }

  lemma PushKeepsQueues(s: System, i: nat, j: nat)
    requires QueuesGood(s) && Enabled(s, PushArrives(i, j))
    ensures QueuesGood(Next(s, PushArrives(i, j)))
  {
    var s' := Next(s, PushArrives(i, j));
    var b := s.nodes[i].pending[j];
    var nodes := AfterBroadcast(s.nodes, Broadcast(s.server, b.ops));
    forall k | 0 <= k < |s'.nodes| ensures QueueGood(s'.accepted, s'.nodes[k]) {
      QueueKept(s.accepted, s'.accepted, s.nodes[k], nodes[k]);
      if k == i { QueueAcked(s'.accepted, nodes[k], j); }
    }
  }

  lemma DeliverKeepsQueue(s: System, i: nat, seeds: seq<Batch>, to: Stamp)
    requires QueuesGood(s) && Enabled(s, Deliver(i, seeds, to))
    ensures QueueGood(s.accepted, Next(s, Deliver(i, seeds, to)).nodes[i])
  {
    var n := s.nodes[i];
    var f := n.conn.frames[0];
    var n0 := n.(conn := Up(n.conn.frames[1..]), view := Receive(n.view, f));
    QueueKept(s.accepted, s.accepted, n, n0);
    if f.Ack? {
      QueueRetires(s.accepted, n0, f.batch);
    } else if f.State? {
      QueueGrows(s.accepted, n0, seeds, to);
    }
  }

  lemma StepKeepsQueues(s: System, t: Step)
    requires QueuesGood(s) && Enabled(s, t)
    ensures QueuesGood(Next(s, t))
  {
    var s' := Next(s, t);
    match t
    case PushArrives(i, j) => PushKeepsQueues(s, i, j);
    case ForeignPush(_) =>
      forall k | 0 <= k < |s'.nodes| ensures QueueGood(s'.accepted, s'.nodes[k]) {
        QueueKept(s.accepted, s.accepted, s.nodes[k], s'.nodes[k]);
      }
    case Purge(_, _) =>
    case LocalWrite(i, added, to) => QueueGrows(s.accepted, s.nodes[i], added, to);
    case Deliver(i, seeds, to) => DeliverKeepsQueue(s, i, seeds, to);
    case Lose(i) => QueueKept(s.accepted, s.accepted, s.nodes[i], s'.nodes[i]);
    case Hello(i, _) => QueueKept(s.accepted, s.accepted, s.nodes[i], s'.nodes[i]);
    case Disconnect(i) => assert QueueGood(s.accepted, s.nodes[i]);
    case Save(i) => assert QueueGood(s.accepted, s.nodes[i]);
    case Restart(i, _) => assert QueueGood(s.accepted, s.nodes[i]);
  }

  lemma {:induction false} RunKeepsQueues(s: System, ts: seq<Step>)
    requires QueuesGood(s) && Run(s, ts)
    ensures QueuesGood(End(s, ts))
    decreases |ts|
  {
    if ts != [] {
      StepKeepsQueues(s, ts[0]);
      RunKeepsQueues(Next(s, ts[0]), ts[1..]);
    }
  }

  /** In every run, a queued batch leaves a replica's queue only once the server has applied its ops
      (or the replica restarts from its snapshot). */
  lemma OnlyAcceptedBatchesRetire(s: System, ts: seq<Step>, t: Step, i: nat, b: Batch)
    requires Initial(s) && Run(s, ts) && Enabled(End(s, ts), t) && i < |End(s, ts).nodes|
    requires !(t.Restart? && t.i == i)
    requires b in End(s, ts).nodes[i].pending
    ensures var e := Next(End(s, ts), t);
            (exists c :: c in e.nodes[i].pending && c.id == b.id && c.ops == b.ops) || Receipt(b.id, b.ops) in e.accepted
  {
    RunKeepsQueues(s, ts);
    var e := End(s, ts);
    var n := e.nodes[i];
    assert QueueGood(e.accepted, n);
    var n' := Next(e, t).nodes[i];
    if t.Deliver? && t.i == i {
      var f := n.conn.frames[0];
      assert f in InFlight(n);
      if f.Ack? && b.id != f.batch { RetireKeepsOthers(n.pending, f.batch, b); }
    } else if t.Disconnect? && t.i == i {
      var j :| 0 <= j < |n.pending| && n.pending[j] == b;
      assert n'.pending[j].id == b.id && n'.pending[j].ops == b.ops;
      assert n'.pending[j] in n'.pending;
    } else {
      assert b in n'.pending;
    }
  }

  /** A step at which the server applied these ops under this id. */
  ghost predicate Pushes(s: System, t: Step, r: Receipt) {
    t.PushArrives? && Enabled(s, t) && s.nodes[t.i].pending[t.j].id == r.id && s.nodes[t.i].pending[t.j].ops == r.ops
  }

  /** A receipt is the record of a push in the run. */
  lemma {:induction false} AcceptedWasPushed(s: System, ts: seq<Step>, r: Receipt) returns (n: nat)
    requires Run(s, ts) && r in End(s, ts).accepted && r !in s.accepted
    ensures n < |ts| && Run(s, ts[..n]) && Pushes(End(s, ts[..n]), ts[n], r)
    decreases |ts|
  {
    var s' := Next(s, ts[0]);
    if r in s'.accepted {
      n := 0;
      assert ts[..0] == [];
    } else {
      var m := AcceptedWasPushed(s', ts[1..], r);
      n := m + 1;
      assert ts[..n][0] == ts[0] && ts[..n][1..] == ts[1..][..m];
    }
  }

  lemma {:induction false} RetireKeepsOthers(bs: seq<Batch>, id: BatchId, b: Batch)
    requires b in bs && b.id != id
    ensures b in Retire(bs, id)
  {
    if bs[0] != b { RetireKeepsOthers(bs[1..], id, b); }
  }
}
