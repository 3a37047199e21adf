/**
 Clients of the chat log: pushes, re-pushes, live rows, catch-up by the plan the state header
 calls for, and checkpoints that clients build from their own content.

 The result is that no accepted update is lost: pruning rows behind a checkpoint never takes
 away an update that some catching-up client still lacks.
 */
module ChatProtocol {
  import opened Wrappers
  import opened Utf8
  import opened ChatLog

  /** A client's document is the set of updates it has imported. A client that has begun a
      catch-up is not `ready` until the checkpoint it may need is imported; rows and acks that
      arrive meanwhile are buffered. */
  datatype Client = Client(cursor: nat, content: set<Bytes>, ready: bool)

  /** `accepted` is the history of accepted rows (row `s` at index `s - 1`); `checkpoint` is the
      content of the committed checkpoint blob. */
  datatype Room = Room(log: Log, checkpoint: set<Bytes>, clients: seq<Client>, accepted: seq<LogRow>)

  const FRESH := Client(0, {}, false)

  predicate Initial(r: Room) {
    && r.log == EMPTY && r.checkpoint == {} && r.accepted == []
    && forall i :: 0 <= i < |r.clients| ==> r.clients[i] == FRESH
  }

  // ---------------------------------------------------------------------------
  // Catch-up

  datatype CatchUpPlan = RowsOnly(after: nat) | CheckpointThenRows(after: nat)

  function PlanCatchUp(cursor: nat, l: Log, contained: bool): CatchUpPlan {
    var c := if cursor > l.head then 0 else cursor;
    if l.checkpointSize == 0 then RowsOnly(c)
    else if contained then RowsOnly(if c > l.checkpointSeq then c else l.checkpointSeq)
    else CheckpointThenRows(l.checkpointSeq)
  }

  /** The checkpoint is fetched only when there is one the client lacks; otherwise no row it has passed
      is asked for again, and pruned rows never are. */
  lemma PlanIsLean(cursor: nat, l: Log, contained: bool)
    requires Sound(l)
    ensures var plan := PlanCatchUp(cursor, l, contained);
            && (plan.CheckpointThenRows? <==> l.checkpointSize > 0 && !contained)
            && l.floor <= plan.after <= l.head
            && (plan.RowsOnly? && cursor <= l.head ==> plan.after >= cursor)
            && (plan.after > l.floor ==> plan.after == cursor)
  {}

  function Plan(c: Client, r: Room): CatchUpPlan {
    PlanCatchUp(c.cursor, r.log, r.checkpoint <= c.content)
  }

  /** The plan's position becomes the cursor at once, before the checkpoint it may call for arrives. */
  function BeginCatchUp(c: Client, r: Room): Client {
    Client(Plan(c, r).after, c.content, false)
  }

  /** The updates of rows `after+1..upto`. */
  function Updates(l: Log, after: nat, upto: nat): set<Bytes> {
    set s | s in l.rows && after < s <= upto :: l.rows[s].bytes
  }

  /** The whole plan, with the rows that follow it received in order up to `upto`. */
  function CatchUp(c: Client, r: Room, upto: nat): Client {
    var plan := Plan(c, r);
    var base := if plan.CheckpointThenRows? then c.content + r.checkpoint else c.content;
    Client(if upto > plan.after then upto else plan.after, base + Updates(r.log, plan.after, upto), true)
  }

  // ---------------------------------------------------------------------------
  // Steps

  datatype Step =
    | Edit(i: nat, update: Bytes)                  // a local edit
    | Push(i: nat, row: LogRow, out: AppendOutcome, log': Log, acked: bool)  // a push or re-push; its ack may be lost
    | LiveRow(i: nat, s: nat)                      // a stored row reaches a ready client, in any order
    | Hang(i: nat)                                 // a catch-up begins and its checkpoint fetch fails
    | Pull(i: nat, upto: nat)                      // a catch-up, possibly cut short after some row
    | Checkpoint(i: nat, size: nat)                // a ready client posts its content at its own cursor
    | Wipe(i: nat)                                 // a client starts over

  /** A re-push carries the bytes first sent under its batch id. */
  ghost predicate SameBatchSameBytes(accepted: seq<LogRow>, row: LogRow) {
    forall x :: x in accepted && x.batchId == row.batchId ==> x.bytes == row.bytes
  }

  ghost predicate Enabled(r: Room, t: Step) {
    && t.i < |r.clients|
    && match t
       case Push(i, row, out, log', acked) =>
         && row.bytes in r.clients[i].content && SameBatchSameBytes(r.accepted, row) && Append(r.log, row, out, log')
       case LiveRow(i, s) => s in r.log.rows && r.clients[i].ready
       case Pull(i, upto) => upto <= r.log.head
       case Checkpoint(i, size) => r.clients[i].ready
       case _ => true
  }

  /** The cursor passes a row or an ack only when it is the next one. */
  function Advance(cursor: nat, s: nat): nat {
    if s == cursor + 1 then s else cursor
  }

  /** What the step makes of its client. */
  ghost function Client'(r: Room, t: Step): Client
    requires Enabled(r, t)
  {
    var c := r.clients[t.i];
    match t
    case Edit(_, update) => c.(content := c.content + {update})
    case Push(_, _, out, _, acked) =>
      if out.Appended? && acked && c.ready then c.(cursor := Advance(c.cursor, out.seqNo)) else c
    case LiveRow(_, s) => c.(cursor := Advance(c.cursor, s), content := c.content + {r.log.rows[s].bytes})
    case Hang(_) => BeginCatchUp(c, r)
    case Pull(_, upto) => CatchUp(c, r, upto)
    case Checkpoint(_, _) => c
    case Wipe(_) => FRESH
  }

  ghost function Next(r: Room, t: Step): Room
    requires Enabled(r, t)
  {
    var clients := r.clients[t.i := Client'(r, t)];
    match t
    case Push(_, row, out, log', _) =>
      Room(log', r.checkpoint, clients, if out.Appended? && !out.dup then r.accepted + [row] else r.accepted)
    case Checkpoint(i, size) =>
      var c := r.clients[i];
      Room(Commit(r.log, c.cursor, size), if Committable(r.log, c.cursor, size) then c.content else r.checkpoint,
           clients, r.accepted)
    case _ => r.(clients := clients)
  }

  ghost predicate Run(r: Room, ts: seq<Step>)
    decreases |ts|
  {
    ts == [] || (Enabled(r, ts[0]) && Run(Next(r, ts[0]), ts[1..]))
  }

  ghost function End(r: Room, ts: seq<Step>): Room
    requires Run(r, ts)
    decreases |ts|
  {
    if ts == [] then r else End(Next(r, ts[0]), ts[1..])
  }

  // ---------------------------------------------------------------------------
  // The invariant

  /** The content holds every accepted update up to `n`. */
  ghost predicate Holds(accepted: seq<LogRow>, n: nat, content: set<Bytes>) {
    n <= |accepted| && forall j :: 0 <= j < n ==> accepted[j].bytes in content
  }

  /** A ready client holds everything up to its cursor. One interrupted in catch-up may not, but
      then its cursor is no higher than the floor. */
  ghost predicate Honest(accepted: seq<LogRow>, floor: nat, c: Client) {
    Holds(accepted, c.cursor, c.content) || (!c.ready && c.cursor <= floor)
  }

  ghost predicate LogMatches(l: Log, accepted: seq<LogRow>) {
    && l.head == |accepted|
    && forall j :: 0 <= j < |accepted| && j >= l.floor ==> j + 1 in l.rows && l.rows[j + 1] == accepted[j]
  }

  ghost predicate Inv(r: Room) {
    && Sound(r.log) && LogMatches(r.log, r.accepted)
    && Holds(r.accepted, r.log.floor, r.checkpoint)
    && forall i :: 0 <= i < |r.clients| ==> Honest(r.accepted, r.log.floor, r.clients[i])
  }

  /** Whatever plan an honest client follows, it then holds every accepted update it was sent up to. */
  lemma CatchUpHolds(r: Room, c: Client, upto: nat)
    requires Inv(r) && Honest(r.accepted, r.log.floor, c) && upto <= r.log.head
    ensures var c' := CatchUp(c, r, upto); Holds(r.accepted, c'.cursor, c'.content) && c'.cursor >= upto
  {
    var plan := Plan(c, r);
    var c' := CatchUp(c, r, upto);
    forall j | 0 <= j < c'.cursor ensures r.accepted[j].bytes in c'.content {
      if j >= plan.after { assert j + 1 in r.log.rows; }
    }
  }

  lemma HangHonest(r: Room, c: Client)
    requires Inv(r) && Honest(r.accepted, r.log.floor, c)
    ensures Honest(r.accepted, r.log.floor, BeginCatchUp(c, r))
  {}

  lemma HoldsLonger(accepted: seq<LogRow>, more: seq<LogRow>, n: nat, content: set<Bytes>)
    requires Holds(accepted, n, content)
    ensures Holds(accepted + more, n, content)
  {}

  /** The room half of a push. */
  lemma PushLog(r: Room, row: LogRow, out: AppendOutcome, log': Log)
    requires Inv(r) && Append(r.log, row, out, log')
    ensures Sound(log') && log'.floor == r.log.floor
    ensures LogMatches(log', if out.Appended? && !out.dup then r.accepted + [row] else r.accepted)
  {
    AppendSound(r.log, row, out, log');
  }

  /** An acknowledged row is the batch the sender holds. */
  lemma AckedBytes(r: Room, row: LogRow, out: AppendOutcome, log': Log)
    requires Inv(r) && Append(r.log, row, out, log') && SameBatchSameBytes(r.accepted, row) && out.Appended?
    ensures var accepted' := if out.dup then r.accepted else r.accepted + [row];
            1 <= out.seqNo <= |accepted'| && accepted'[out.seqNo - 1].bytes == row.bytes
  {
    if out.dup {
      assert StoredAt(r.log, row.batchId, out.seqNo);
      var j := out.seqNo - 1;
      assert j + 1 in r.log.rows && r.log.rows[j + 1] == r.accepted[j];
    }
  }

  lemma AdvanceHolds(accepted: seq<LogRow>, n: nat, s: nat, content: set<Bytes>)
    requires Holds(accepted, n, content) && 1 <= s <= |accepted| && accepted[s - 1].bytes in content
    ensures Holds(accepted, Advance(n, s), content)
  {}

  /** The acting client stays honest. */
  lemma ActorStaysHonest(r: Room, t: Step)
    requires Inv(r) && Enabled(r, t)
    ensures Honest(Next(r, t).accepted, r.log.floor, Client'(r, t))
  {
    var c := r.clients[t.i];
    match t
    case Push(_, row, out, log', acked) =>
      var more := if out.Appended? && !out.dup then [row] else [];
      assert Next(r, t).accepted == r.accepted + more;
      if Holds(r.accepted, c.cursor, c.content) {
        HoldsLonger(r.accepted, more, c.cursor, c.content);
        if out.Appended? {
          AckedBytes(r, row, out, log');
          AdvanceHolds(r.accepted + more, c.cursor, out.seqNo, c.content);
        }
      }
    case LiveRow(_, s) =>
      var j: nat := s - 1;
      assert j + 1 in r.log.rows && r.log.rows[j + 1] == r.accepted[j];
      var content := c.content + {r.log.rows[s].bytes};
      AdvanceHolds(r.accepted, c.cursor, s, content);
    case Hang(_) => HangHonest(r, c);
    case Pull(_, upto) => CatchUpHolds(r, c, upto);
    case _ =>
  }

  lemma BystanderStaysHonest(r: Room, t: Step, c: Client)
    requires Inv(r) && Enabled(r, t) && Honest(r.accepted, r.log.floor, c)
    ensures Honest(Next(r, t).accepted, r.log.floor, c)
  {
    if t.Push? && Holds(r.accepted, c.cursor, c.content) {
      HoldsLonger(r.accepted, [t.row], c.cursor, c.content);
    }
  }

  lemma RoomStaysSound(r: Room, t: Step)
    requires Inv(r) && Enabled(r, t)
    ensures var r' := Next(r, t);
            && Sound(r'.log) && LogMatches(r'.log, r'.accepted) && r.log.floor <= r'.log.floor
            && Holds(r'.accepted, r'.log.floor, r'.checkpoint)
  {
    match t
    case Push(_, row, out, log', _) =>
      PushLog(r, row, out, log');
      HoldsLonger(r.accepted, [row], r.log.floor, r.checkpoint);
    case Checkpoint(i, size) =>
      var c := r.clients[i];
      CommitSound(r.log, c.cursor, size);
      assert Holds(r.accepted, c.cursor, c.content);
    case _ =>
  }

  lemma StepKeepsInv(r: Room, t: Step)
    requires Inv(r) && Enabled(r, t)
    ensures Inv(Next(r, t))
  {
    var r' := Next(r, t);
    RoomStaysSound(r, t);
    ActorStaysHonest(r, t);
    forall i | 0 <= i < |r'.clients| ensures Honest(r'.accepted, r'.log.floor, r'.clients[i]) {
      if i == t.i {
        HonestAtHigherFloor(r'.accepted, r.log.floor, r'.log.floor, Client'(r, t));
      } else {
        BystanderStaysHonest(r, t, r.clients[i]);
        HonestAtHigherFloor(r'.accepted, r.log.floor, r'.log.floor, r.clients[i]);
      }
    }
  }

  lemma HonestAtHigherFloor(accepted: seq<LogRow>, floor: nat, floor': nat, c: Client)
    requires Honest(accepted, floor, c) && floor <= floor'
    ensures Honest(accepted, floor', c)
  {}

  lemma {:induction false} RunKeepsInv(r: Room, ts: seq<Step>)
    requires Inv(r) && Run(r, ts)
    ensures Inv(End(r, ts))
    decreases |ts|
  {
    if ts != [] {
      StepKeepsInv(r, ts[0]);
      RunKeepsInv(Next(r, ts[0]), ts[1..]);
    }
  }

  /** Accepted rows are never forgotten: the history only grows. */
  lemma {:induction false} HistoryGrows(r: Room, ts: seq<Step>)
    requires Run(r, ts)
    ensures r.accepted <= End(r, ts).accepted
    decreases |ts|
  {
    if ts != [] { HistoryGrows(Next(r, ts[0]), ts[1..]); }
  }

  // ---------------------------------------------------------------------------
  // The main results

  /** In every run the log is sound: stored seqs are exactly floor+1..head, live batch ids are
      unique, the checkpoint sits at the floor. */
  lemma EveryRunIsSound(r: Room, ts: seq<Step>)
    requires Initial(r) && Run(r, ts)
    ensures Sound(End(r, ts).log) && LogMatches(End(r, ts).log, End(r, ts).accepted)
  {
    RunKeepsInv(r, ts);
  }

  /** A push acknowledged anywhere in a run is in the content of every client that later catches
      up, whatever was pruned in between and however the client got where it is. */
  lemma NoLostUpdate(r: Room, before: seq<Step>, t: Step, after: seq<Step>, i: nat)
    requires Initial(r) && Run(r, before) && Run(End(r, before), [t] + after)
    requires t.Push? && t.out.Appended?
    requires i < |End(End(r, before), [t] + after).clients|
    ensures var last := End(End(r, before), [t] + after);
            t.row.bytes in CatchUp(last.clients[i], last, last.log.head).content
  {
    RunKeepsInv(r, before);
    var mid := End(r, before);
    assert ([t] + after)[0] == t && ([t] + after)[1..] == after;
    var r' := Next(mid, t);
    AckedBytes(mid, t.row, t.out, t.log');
    var at: nat := t.out.seqNo - 1;
    assert at < |r'.accepted| && r'.accepted[at].bytes == t.row.bytes;
    HistoryGrows(r', after);
    RunKeepsInv(mid, [t] + after);
    var last := End(mid, [t] + after);
    CatchUpHolds(last, last.clients[i], last.log.head);
    assert last.accepted[at] == r'.accepted[at];
  }

  /** A run in which one client's update is accepted and pruned behind its checkpoint, and another
      client's catch-up then begins and is cut off. */
  ghost function Interrupted(row: LogRow): seq<Step> {
    [Pull(0, 0), Edit(0, row.bytes), Push(0, row, Appended(1, false), Log(map[1 := row], 1, 0, 0, 0), true), Checkpoint(0, 1), Hang(1)]
  }

  lemma RunCons(r: Room, t: Step, ts: seq<Step>)
    ensures Run(r, [t] + ts) <==> Enabled(r, t) && Run(Next(r, t), ts)
    ensures Run(r, [t] + ts) ==> End(r, [t] + ts) == End(Next(r, t), ts)
  {
    assert ([t] + ts)[1..] == ts;
  }

  lemma RunFive(r: Room, a: Step, b: Step, c: Step, d: Step, e: Step, r1: Room, r2: Room, r3: Room, r4: Room)
    requires Enabled(r, a) && r1 == Next(r, a) && Enabled(r1, b) && r2 == Next(r1, b) && Enabled(r2, c) && r3 == Next(r2, c)
    requires Enabled(r3, d) && r4 == Next(r3, d) && Enabled(r4, e)
    ensures Run(r, [a, b, c, d, e]) && End(r, [a, b, c, d, e]) == Next(r4, e)
  {
    RunCons(r4, e, []);
    RunCons(r3, d, [e]);
    RunCons(r2, c, [d, e]);
    RunCons(r1, b, [c, d, e]);
    RunCons(r, a, [b, c, d, e]);
    assert [e] + [] == [e] && [d] + [e] == [d, e] && [c] + [d, e] == [c, d, e];
    assert [b] + [c, d, e] == [b, c, d, e] && [a] + [b, c, d, e] == [a, b, c, d, e];
  }

  lemma FirstSteps(u: Bytes)
    ensures Next(Room(EMPTY, {}, [FRESH, FRESH], []), Pull(0, 0)) == Room(EMPTY, {}, [Client(0, {}, true), FRESH], [])
    ensures Next(Room(EMPTY, {}, [Client(0, {}, true), FRESH], []), Edit(0, u)) == Room(EMPTY, {}, [Client(0, {u}, true), FRESH], [])
  {
    var r0, r1 := Room(EMPTY, {}, [FRESH, FRESH], []), Room(EMPTY, {}, [Client(0, {}, true), FRESH], []);
    assert Updates(EMPTY, 0, 0) == {};
    assert CatchUp(FRESH, r0, 0) == Client(0, {}, true);
    assert r0.clients[0 := Client(0, {}, true)] == r1.clients;
    assert {} + {u} == {u};
    assert r1.clients[0 := Client(0, {u}, true)] == [Client(0, {u}, true), FRESH];
  }

  /** An interrupted client's cursor can be ahead of its content, at the head of the log even: it is
      the containment check on the checkpoint that makes the next catch-up complete. */
  lemma InterruptedCursorIsAhead(row: LogRow)
    requires 0 < |row.bytes| <= MAX_ROW_BYTES
    ensures var start := Room(EMPTY, {}, [FRESH, FRESH], []);
            && Initial(start) && Run(start, Interrupted(row))
            && var r := End(start, Interrupted(row));
               |r.clients| == 2 &&
               var c := r.clients[1];
               c.cursor == 1 == r.log.head && row.bytes !in c.content && row.bytes in CatchUp(c, r, 1).content
  {
    var u, log1, log2 := row.bytes, Log(map[1 := row], 1, 0, 0, 0), Log(map[], 1, 1, 1, 1);
    var r0 := Room(EMPTY, {}, [FRESH, FRESH], []);
    var r1 := Room(EMPTY, {}, [Client(0, {}, true), FRESH], []);
    var r2 := Room(EMPTY, {}, [Client(0, {u}, true), FRESH], []);
    var r3 := Room(log1, {}, [Client(1, {u}, true), FRESH], [row]);
    var r4 := Room(log2, {u}, [Client(1, {u}, true), FRESH], [row]);
    var push := Push(0, row, Appended(1, false), log1, true);
    FirstSteps(u);
    assert Next(r2, push) == r3;
    assert Pruned(log1, 1) == map[];
    assert Next(r3, Checkpoint(0, 1)) == r4;
    RunFive(r0, Pull(0, 0), Edit(0, u), push, Checkpoint(0, 1), Hang(1), r1, r2, r3, r4);
  }
}
