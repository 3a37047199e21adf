/**
 The server side of the registry: the row table, the batch sequence number, the hello
 answer and the tombstone garbage collection.
 */
module RegistryRoom {
  import opened Wrappers
  import opened Hlc
  import opened RegistryMerge

  type Table = map<Key, Row>

  datatype Server = Server(rows: Table, seqNo: nat, gcFloor: nat)

  function Get(t: Table, k: Key): Option<Row> {
    if k in t then Some(t[k]) else None
  }

  /** Rows are stored under their own key with the seq of an accepted batch. */
  ghost predicate Sound(s: Server) {
    && s.gcFloor <= s.seqNo
    && forall k :: k in s.rows ==> s.rows[k].key == k && 1 <= s.rows[k].seqNo <= s.seqNo
  }

  // ---------------------------------------------------------------------------
  // Pushing a batch

  const MAX_BATCH_OPS := 500

  /** The rows a batch changes, stamped with the batch's seq. */
  function Touch(rows: Table, touched: Table, ops: seq<Op>, n: nat): Table
    decreases |ops|
  {
    if ops == [] then touched
    else Touch(rows, TouchOne(rows, touched, ops[0], n), ops[1..], n)
  }

  function TouchOne(rows: Table, touched: Table, op: Op, n: nat): Table {
    var a := Apply(Get(rows + touched, op.key), op);
    if a.changed && a.row.Some? then touched[op.key := a.row.value.(seqNo := n)] else touched
  }

  /** How many ops of a batch change the row they find. */
  function Changes(rows: Table, touched: Table, ops: seq<Op>, n: nat): nat
    decreases |ops|
  {
    if ops == [] then 0
    else
      var a := Apply(Get(rows + touched, ops[0].key), ops[0]);
      (if a.changed && a.row.Some? then 1 else 0) + Changes(rows, TouchOne(rows, touched, ops[0], n), ops[1..], n)
  }

  function TouchedBy(s: Server, ops: seq<Op>): Table {
    Touch(s.rows, map[], ops, s.seqNo + 1)
  }

  /** Merged rows replace the stored ones and the seq advances, unless nothing changed. */
  function Push(s: Server, ops: seq<Op>): Server {
    var t := TouchedBy(s, ops);
    if t == map[] then s else Server(s.rows + t, s.seqNo + 1, s.gcFloor)
  }

  /** The row an op leaves is stored under the op's key. */
  lemma ApplyKeepsKey(row: Option<Row>, op: Op)
    requires row.Some? ==> row.value.key == op.key
    ensures var r := Apply(row, op).row; r.Some? ==> r.value.key == op.key
  {}

  ghost predicate Stamped(t: Table, n: nat) {
    forall k :: k in t ==> t[k].key == k && t[k].seqNo == n
  }

  lemma {:induction false} TouchIsStamped(rows: Table, touched: Table, ops: seq<Op>, n: nat)
    requires forall k :: k in rows ==> rows[k].key == k
    requires Stamped(touched, n)
    ensures Stamped(Touch(rows, touched, ops, n), n)
    decreases |ops|
  {
    if ops != [] {
      ApplyKeepsKey(Get(rows + touched, ops[0].key), ops[0]);
      TouchIsStamped(rows, TouchOne(rows, touched, ops[0], n), ops[1..], n);
    }
  }

  lemma PushSound(s: Server, ops: seq<Op>)
    requires Sound(s)
    ensures Sound(Push(s, ops)) && Stamped(TouchedBy(s, ops), s.seqNo + 1)
    ensures TouchedBy(s, ops) != map[] ==> Push(s, ops).seqNo == s.seqNo + 1
    ensures TouchedBy(s, ops) == map[] ==> Push(s, ops) == s
  {
    TouchIsStamped(s.rows, map[], ops, s.seqNo + 1);
  }

  lemma {:induction false} TouchSnoc(rows: Table, touched: Table, ops: seq<Op>, op: Op, n: nat)
    ensures Touch(rows, touched, ops + [op], n) == TouchOne(rows, Touch(rows, touched, ops, n), op, n)
    decreases |ops|
  {
    if ops == [] {
      assert [] + [op] == [op] && [op][1..] == [];
    } else {
      assert (ops + [op])[0] == ops[0] && (ops + [op])[1..] == ops[1..] + [op];
      TouchSnoc(rows, TouchOne(rows, touched, ops[0], n), ops[1..], op, n);
    }
  }

  /** The ops of a batch that concern one row, in order. */
  function OpsOn(ops: seq<Op>, k: Key): seq<Op> {
    if ops == [] then [] else (if ops[0].key == k then [ops[0]] else []) + OpsOn(ops[1..], k)
  }

  /** Equal up to the server seq. */
  predicate SameRow(a: Option<Row>, b: Option<Row>) {
    a.None? == b.None? && (a.Some? ==> a.value.(seqNo := 0) == b.value.(seqNo := 0))
  }

  lemma ApplyIgnoresSeq(a: Option<Row>, b: Option<Row>, op: Op)
    requires SameRow(a, b)
    ensures SameRow(Apply(a, op).row, Apply(b, op).row)
    ensures Apply(a, op).changed == Apply(b, op).changed
    ensures !Apply(a, op).changed ==> SameRow(Apply(a, op).row, a)
  {
    if a.Some? {
      var r, s := a.value, b.value;
      assert r == s.(seqNo := r.seqNo);
      if IsLive(a) && !op.kind.Delete? {
        SameWrites(r, s, op);
        assert forall f :: Wins(r, op, f) == Wins(s, op, f);
        if !Apply(a, op).changed { WriteOfNothing(r, op); }
      } else if !op.kind.Delete? {
        SameWrites(r.(deleted := false, fields := map[], clocks := map[]), s.(deleted := false, fields := map[], clocks := map[]), op);
      }
    }
  }

  lemma SameWrites(r: Row, s: Row, op: Op)
    requires r == s.(seqNo := r.seqNo)
    ensures Write(r, op).fields == Write(s, op).fields
    ensures Write(r, op).clocks == Write(s, op).clocks
  {
    forall f ensures Lookup(Write(r, op).fields, f) == Lookup(Write(s, op).fields, f)
             ensures Lookup(Write(r, op).clocks, f) == Lookup(Write(s, op).clocks, f)
    {
      WriteAt(r, op, f);
      WriteAt(s, op, f);
    }
    SameMap(Write(r, op).fields, Write(s, op).fields);
    SameMap(Write(r, op).clocks, Write(s, op).clocks);
  }

  lemma {:induction false} RunIgnoresSeq(a: Option<Row>, b: Option<Row>, ops: seq<Op>)
    requires SameRow(a, b)
    ensures SameRow(Run(a, ops), Run(b, ops))
    decreases |ops|
  {
    if ops != [] {
      ApplyIgnoresSeq(a, b, ops[0]);
      RunIgnoresSeq(Apply(a, ops[0]).row, Apply(b, ops[0]).row, ops[1..]);
    }
  }

  lemma TouchOneIsApply(rows: Table, touched: Table, op: Op, n: nat, k: Key)
    ensures var before, after := Get(rows + touched, k), Get(rows + TouchOne(rows, touched, op, n), k);
            if op.key == k then SameRow(after, Apply(before, op).row) else after == before
  {
    var before := Get(rows + touched, op.key);
    ApplyIgnoresSeq(before, before, op);
  }

  /** The table after a batch holds, per row, the run of that row's ops (up to the stamp). */
  lemma {:induction false} TouchIsRun(rows: Table, touched: Table, ops: seq<Op>, n: nat, k: Key)
    ensures SameRow(Get(rows + Touch(rows, touched, ops, n), k), Run(Get(rows + touched, k), OpsOn(ops, k)))
    decreases |ops|
  {
    if ops != [] {
      var t := TouchOne(rows, touched, ops[0], n);
      TouchOneIsApply(rows, touched, ops[0], n, k);
      TouchIsRun(rows, t, ops[1..], n, k);
      var before, rest := Get(rows + touched, k), OpsOn(ops[1..], k);
      if ops[0].key == k {
        RunIgnoresSeq(Get(rows + t, k), Apply(before, ops[0]).row, rest);
        assert OpsOn(ops, k)[0] == ops[0] && OpsOn(ops, k)[1..] == rest;
      } else {
        assert OpsOn(ops, k) == rest;
      }
    }
  }

  /** What a pushed batch does to each row: exactly the run of its ops on that row. */
  lemma PushIsRun(s: Server, ops: seq<Op>, k: Key)
    ensures SameRow(Get(Push(s, ops).rows, k), Run(Get(s.rows, k), OpsOn(ops, k)))
  {
    TouchIsRun(s.rows, map[], ops, s.seqNo + 1, k);
    assert s.rows + map[] == s.rows;
  }

  /** The op changes the row that the ops before it in the batch leave. */
  predicate Effective(rows: Table, before: seq<Op>, op: Op) {
    Apply(Run(Get(rows, op.key), OpsOn(before, op.key)), op).changed
  }

  /** How many of `ops` are effective, after those of `before`. */
  function CountEffective(rows: Table, before: seq<Op>, ops: seq<Op>): nat
    decreases |ops|
  {
    if ops == [] then 0
    else (if Effective(rows, before, ops[0]) then 1 else 0) + CountEffective(rows, before + [ops[0]], ops[1..])
  }

  lemma {:induction false} ChangesAreEffective(rows: Table, before: seq<Op>, ops: seq<Op>, n: nat)
    ensures Changes(rows, Touch(rows, map[], before, n), ops, n) == CountEffective(rows, before, ops)
    decreases |ops|
  {
    if ops != [] {
      var t, op := Touch(rows, map[], before, n), ops[0];
      TouchIsRun(rows, map[], before, n, op.key);
      assert rows + map[] == rows;
      ApplyIgnoresSeq(Get(rows + t, op.key), Run(Get(rows, op.key), OpsOn(before, op.key)), op);
      TouchSnoc(rows, map[], before, op, n);
      ChangesAreEffective(rows, before + [op], ops[1..], n);
    }
  }

  /** The count acknowledged is the number of ops that changed the row they found. */
  lemma AckCountsEffective(rows: Table, ops: seq<Op>, n: nat)
    ensures Changes(rows, map[], ops, n) == CountEffective(rows, [], ops)
  {
    ChangesAreEffective(rows, [], ops, n);
  }

  // ---------------------------------------------------------------------------
  // Hello and garbage collection

  function Since(rows: Table, cursor: nat): Table {
    map k | k in rows && rows[k].seqNo > cursor :: rows[k]
  }

  /** A cursor the server cannot answer with a delta: absent, behind the purge horizon, or ahead. */
  predicate NeedsFull(s: Server, cursor: Option<nat>) {
    cursor.None? || cursor.value < s.gcFloor || cursor.value > s.seqNo
  }

  function Purgeable(s: Server, horizon: Clock): set<Key> {
    set k | k in s.rows && s.rows[k].deleted && s.rows[k].delHlc.Some? && Less(s.rows[k].delHlc.value, horizon)
  }

  /** `floor` is the horizon after the purge: at or above every purged row. */
  ghost predicate Purged(s: Server, horizon: Clock, s': Server) {
    var gone := Purgeable(s, horizon);
    && s' == Server(s.rows - gone, s.seqNo, s'.gcFloor)
    && (if gone == {} then s'.gcFloor == s.gcFloor
        else && s'.gcFloor >= s.gcFloor
             && (forall k :: k in gone ==> s.rows[k].seqNo <= s'.gcFloor)
             && (s'.gcFloor == s.gcFloor || exists k :: k in gone && s.rows[k].seqNo == s'.gcFloor))
  }

  /** The purge removes old tombstones only, and whoever may have missed one of those deletes is
      sent the whole table. */
  lemma PurgeSound(s: Server, horizon: Clock, s': Server)
    requires Sound(s) && Purged(s, horizon, s')
    ensures Sound(s')
    ensures forall k :: k in s.rows && !s.rows[k].deleted ==> k in s'.rows && s'.rows[k] == s.rows[k]
    ensures forall k, c: nat :: k in s.rows && k !in s'.rows && c < s.rows[k].seqNo ==> NeedsFull(s', Some(c))
  {}

  /** The horizon of a purge at a wall-clock time. */
  function Horizon(ms: nat): Clock {
    Padded(ms, 13) + "-"
  }

  /** A clock is before the horizon exactly when it was stamped before that time. */
  lemma BeforeHorizon(s: Stamp, device: string, ms: nat)
    requires s.ms < Pow10(13) && ms < Pow10(13)
    ensures Less(Encode(s, device), Horizon(ms)) <==> s.ms < ms
  {
    EncodeBefore(s.ms, ms, 13, Padded(s.counter, 6), device);
  }

  /** The purge removes exactly the rows deleted before the horizon's time. */
  lemma PurgesByTime(s: Server, ms: nat, s': Server, k: Key, at: Stamp, device: string)
    requires Purged(s, Horizon(ms), s') && k in s.rows && s.rows[k].delHlc == Some(Encode(at, device))
    requires at.ms < Pow10(13) && ms < Pow10(13)
    ensures k !in s'.rows <==> s.rows[k].deleted && at.ms < ms
    ensures k in s'.rows ==> s'.rows[k] == s.rows[k]
  {
    BeforeHorizon(at, device, ms);
  }

  // ---------------------------------------------------------------------------
  // The room

  datatype PushOutcome =
    | Rejected
    | Accepted(seqNo: nat, applied: nat)

  /** A list of rows as the table it stands for; a later row with the same key wins. */
  function AsTable(rows: seq<Row>): Table {
    if rows == [] then map[]
    else AsTable(rows[..|rows| - 1])[rows[|rows| - 1].key := rows[|rows| - 1]]
  }

  predicate AllValid(ops: seq<Op>, valid: Op -> bool) {
    forall op :: op in ops ==> valid(op)
  }

  /** Rows stand under their own keys. */
  ghost predicate Keyed(t: Table) {
    forall k :: k in t ==> t[k].key == k
  }

  lemma {:induction false} AsTableKeyed(rows: seq<Row>)
    ensures Keyed(AsTable(rows))
  {
    if rows != [] { AsTableKeyed(rows[..|rows| - 1]); }
  }

  datatype StateFrame = StateFrame(seqNo: nat, full: bool, gcFloor: nat, rows: seq<Row>)

  class Room {
    var rows: Table
    var seqNo: nat
    var gcFloor: nat

    ghost function State(): Server
      reads this
    {
      Server(rows, seqNo, gcFloor)
    }

    constructor ()
      ensures State() == Server(map[], 0, 0) && Sound(State())
    {
      rows, seqNo, gcFloor := map[], 0, 0;
    }

    /** Apply one batch.  `touched` is the broadcast to every ready socket; it is empty when
        nothing changed. */
    method ApplyPushBatch(batch: string, ops: seq<Op>, valid: Op -> bool) returns (out: PushOutcome, touched: seq<Row>)
      requires Sound(State())
      modifies this
      ensures Sound(State())
      ensures out.Rejected? <==> batch == "" || ops == [] || |ops| > MAX_BATCH_OPS || !AllValid(ops, valid)
      ensures out.Rejected? ==> State() == old(State()) && touched == []
      ensures out.Accepted? ==> State() == Push(old(State()), ops) && AsTable(touched) == TouchedBy(old(State()), ops)
      ensures out.Accepted? ==> out.seqNo == seqNo && out.applied == Changes(old(rows), map[], ops, old(seqNo) + 1)
      ensures out.Accepted? ==> (touched != [] <==> out.applied > 0)
    {
      if batch == "" || |ops| == 0 || |ops| > MAX_BATCH_OPS {
        return Rejected, [];
      }
      if !AllValid(ops, valid) {
        return Rejected, [];
      }
      ghost var s := State();
      PushSound(s, ops);
      var n := seqNo + 1;
      var t, applied := TouchRows(rows, ops, n);
      assert t == TouchedBy(s, ops);
      touched := ListRows(t);
      if applied > 0 {
        rows := rows + t;
        seqNo := n;
      }
      assert State() == Push(s, ops);
      out := Accepted(seqNo, applied);
    }

    /** The answer to a hello, or to a plain pull. */
    method Hello(cursor: Option<nat>) returns (f: StateFrame)
      requires Sound(State())
      ensures f.seqNo == seqNo && f.gcFloor == gcFloor && f.full == NeedsFull(State(), cursor)
      ensures InOrder(f.rows) && AsTable(f.rows) == if f.full then rows else Since(rows, cursor.value)
    {
      var full := cursor.None? || cursor.value < gcFloor || cursor.value > seqNo;
      var from := if full then 0 else cursor.value;
      var list := ListRows(Since(rows, from));
      assert full ==> Since(rows, 0) == rows;
      f := StateFrame(seqNo, full, gcFloor, list);
    }

    /** The daily tombstone purge. */
    method CollectTombstones(horizon: Clock)
      requires Sound(State())
      modifies this
      ensures Sound(State()) && Purged(old(State()), horizon, State())
    {
      ghost var s := State();
      var purgedMax := 0;
      var gone: set<Key> := {};
      var todo := rows.Keys;
      while todo != {}
        invariant todo <= rows.Keys
        invariant gone == set k | k in Purgeable(s, horizon) && k !in todo
        invariant forall k :: k in gone ==> rows[k].seqNo <= purgedMax
        invariant if gone == {} then purgedMax == 0 else exists k :: k in gone && rows[k].seqNo == purgedMax
        decreases |todo|
      {
        var k :| k in todo;
        var r := rows[k];
        todo := todo - {k};
        if r.deleted && r.delHlc.Some? && Less(r.delHlc.value, horizon) {
          gone := gone + {k};
          purgedMax := if r.seqNo > purgedMax then r.seqNo else purgedMax;
        }
      }
      assert gone == Purgeable(s, horizon);
      if purgedMax > 0 {
        rows := rows - gone;
        gcFloor := if purgedMax > gcFloor then purgedMax else gcFloor;
      } else {
        assert rows - gone == rows;
      }
    }
  }

  /** The ops one after the other, over the rows already touched and the stored ones. */
  method TouchRows(rows: Table, ops: seq<Op>, n: nat) returns (t: Table, applied: nat)
    ensures t == Touch(rows, map[], ops, n) && applied == Changes(rows, map[], ops, n)
    ensures applied > 0 <==> t != map[]
  {
    t, applied := map[], 0;
    var i := 0;
    while i < |ops|
      invariant 0 <= i <= |ops|
      invariant Touch(rows, t, ops[i..], n) == Touch(rows, map[], ops, n)
      invariant applied + Changes(rows, t, ops[i..], n) == Changes(rows, map[], ops, n)
      invariant applied > 0 <==> t != map[]
    {
      var op := ops[i];
      var before := if op.key in t then Some(t[op.key]) else Get(rows, op.key);
      assert before == Get(rows + t, op.key);
      var row, changed := ApplyOp(before, op);
      assert ops[i..][1..] == ops[i + 1..];
      if changed && row.Some? {
        applied := applied + 1;
        t := t[op.key := row.value.(seqNo := n)];
        assert op.key in t;
      }
      i := i + 1;
    }
  }

  /** Each row once, by seq. */
  ghost predicate InOrder(list: seq<Row>) {
    && (forall i, j :: 0 <= i < j < |list| ==> list[i].seqNo <= list[j].seqNo)
    && (forall i, j :: 0 <= i < j < |list| ==> list[i].key != list[j].key)
  }

  /** The key of a row with the least seq. */
  method Earliest(t: Table, keys: set<Key>) returns (k: Key)
    requires keys != {} && keys <= t.Keys
    ensures k in keys && forall x :: x in keys ==> t[k].seqNo <= t[x].seqNo
  {
    k :| k in keys;
    var todo := keys - {k};
    while todo != {}
      invariant todo <= keys && k in keys
      invariant forall x :: x in keys && x !in todo ==> t[k].seqNo <= t[x].seqNo
      decreases |todo|
    {
      var x :| x in todo;
      if t[x].seqNo < t[k].seqNo { k := x; }
      todo := todo - {x};
    }
  }

  lemma InOrderSnoc(list: seq<Row>, r: Row)
    requires InOrder(list) && forall x :: x in list ==> x.seqNo <= r.seqNo && x.key != r.key
    ensures InOrder(list + [r])
  {
    assert forall i :: 0 <= i < |list| ==> list[i] in list;
  }

  lemma AsTableSnoc(t: Table, todo: set<Key>, list: seq<Row>, k: Key)
    requires k in todo && todo <= t.Keys && t[k].key == k && AsTable(list) == t - todo
    ensures AsTable(list + [t[k]]) == t - (todo - {k})
  {
    assert (list + [t[k]])[..|list|] == list;
  }

  /** What is listed comes before what is not. */
  ghost predicate Ahead(t: Table, todo: set<Key>, list: seq<Row>)
    requires todo <= t.Keys
  {
    forall r, k :: r in list && k in todo ==> r.seqNo <= t[k].seqNo && r.key != k
  }

  /** The rows of a table as a list, in the order of their seqs. */
  method ListRows(t: Table) returns (list: seq<Row>)
    requires forall k :: k in t ==> t[k].key == k
    ensures AsTable(list) == t && InOrder(list)
    ensures list == [] <==> t == map[]
  {
    list := [];
    var todo := t.Keys;
    while todo != {}
      invariant todo <= t.Keys && InOrder(list) && Ahead(t, todo, list)
      invariant AsTable(list) == t - todo
      decreases |todo|
    {
      var k := Earliest(t, todo);
      InOrderSnoc(list, t[k]);
      AsTableSnoc(t, todo, list, k);
      todo, list := todo - {k}, list + [t[k]];
    }
    assert t - {} == t;
  }
}
