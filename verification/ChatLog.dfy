/**
 The chat log: a seq-ordered log of opaque updates with duplicate detection, and one
 client-written checkpoint whose floor only moves forward.
 */
module ChatLog {
  import opened Wrappers
  import opened Utf8

  const MAX_ROW_BYTES := 1024 * 1024

  datatype LogRow = LogRow(device: string, batchId: string, bytes: Bytes)

  /** `checkpointSize` zero means that no checkpoint was ever committed. */
  datatype Log = Log(rows: map<nat, LogRow>, head: nat, floor: nat, checkpointSeq: nat, checkpointSize: nat)

  const EMPTY := Log(map[], 0, 0, 0, 0)

  /** The stored seqs are exactly floor+1..head, live batch ids are unique, and the checkpoint sits
      at the floor. */
  ghost predicate Sound(l: Log) {
    && l.floor <= l.head
    && (forall s :: s in l.rows <==> l.floor < s <= l.head)
    && (forall s, t :: s in l.rows && t in l.rows && l.rows[s].batchId == l.rows[t].batchId ==> s == t)
    && (forall s :: s in l.rows ==> 0 < |l.rows[s].bytes| <= MAX_ROW_BYTES)
    && l.checkpointSeq == l.floor
    && (l.checkpointSize == 0 ==> l.floor == 0)
  }

  /** Where a batch id is stored. */
  ghost predicate StoredAt(l: Log, batchId: string, s: nat) {
    s in l.rows && l.rows[s].batchId == batchId
  }

  // ---------------------------------------------------------------------------
  // Appending

  datatype AppendOutcome = Appended(seqNo: nat, dup: bool) | TooLarge | Empty

  /** A live batch id is answered with its seq; otherwise the row goes at the head. */
  ghost predicate Append(l: Log, row: LogRow, out: AppendOutcome, l': Log) {
    if row.bytes == [] then out == Empty && l' == l
    else if |row.bytes| > MAX_ROW_BYTES then out == TooLarge && l' == l
    else if exists s :: StoredAt(l, row.batchId, s) then
      out.Appended? && out.dup && StoredAt(l, row.batchId, out.seqNo) && l' == l
    else out == Appended(l.head + 1, false) && l' == l.(rows := l.rows[l.head + 1 := row], head := l.head + 1)
  }

  lemma AppendSound(l: Log, row: LogRow, out: AppendOutcome, l': Log)
    requires Sound(l) && Append(l, row, out, l')
    ensures Sound(l')
    ensures out.Appended? ==> StoredAt(l', row.batchId, out.seqNo)
    ensures out.Appended? && !out.dup ==> l'.head == l.head + 1 == out.seqNo && l'.rows[l'.head] == row
  {
    if out.Appended? && !out.dup {
      assert forall s :: s in l.rows ==> !StoredAt(l, row.batchId, s);
      FreshRowSound(l, row, l');
    }
  }

  lemma FreshRowSound(l: Log, row: LogRow, l': Log)
    requires Sound(l) && 0 < |row.bytes| <= MAX_ROW_BYTES
    requires forall s :: s in l.rows ==> l.rows[s].batchId != row.batchId
    requires l' == l.(rows := l.rows[l.head + 1 := row], head := l.head + 1)
    ensures Sound(l')
  {
    forall s, t | s in l'.rows && t in l'.rows && l'.rows[s].batchId == l'.rows[t].batchId ensures s == t {
      assert s != l'.head ==> s in l.rows;
      assert t != l'.head ==> t in l.rows;
    }
  }

  /** Pushing a batch again changes nothing while its row is live. */
  lemma RepushIsNoOp(l: Log, row: LogRow, out: AppendOutcome, l': Log, again: AppendOutcome, l'': Log)
    requires Sound(l) && Append(l, row, out, l') && Append(l', row, again, l'') && out.Appended?
    ensures l'' == l' && again == Appended(out.seqNo, true)
  {
    AppendSound(l, row, out, l');
    assert StoredAt(l', row.batchId, out.seqNo);
  }

  // ---------------------------------------------------------------------------
  // Checkpoints

  datatype CommitOutcome = Committed(seqFloor: nat, pruned: nat) | FloorRegression | AheadOfHead | EmptyCheckpoint

  function Pruned(l: Log, covered: nat): map<nat, LogRow> {
    map s | s in l.rows && s > covered :: l.rows[s]
  }

  /** A checkpoint must not be empty, move the floor back, or claim rows that do not exist. */
  predicate Committable(l: Log, covered: nat, size: nat) {
    size > 0 && l.floor <= covered <= l.head
  }

  function Commit(l: Log, covered: nat, size: nat): Log {
    if Committable(l, covered, size) then Log(Pruned(l, covered), l.head, covered, covered, size) else l
  }

  /** A committed checkpoint moves the floor forward, removes exactly the rows it covers, and
      touches nothing above. */
  lemma CommitSound(l: Log, covered: nat, size: nat)
    requires Sound(l)
    ensures Sound(Commit(l, covered, size))
    ensures var l' := Commit(l, covered, size);
            && l'.head == l.head && l.floor <= l'.floor
            && forall s :: l'.floor < s <= l.head ==> s in l.rows && s in l'.rows && l'.rows[s] == l.rows[s]
  {}

  /** Once its row is pruned, a re-pushed batch is stored again: duplicate detection covers live
      rows only. */
  lemma RepushAfterPruneAppends(l: Log, row: LogRow, s: nat, size: nat, out: AppendOutcome, l': Log)
    requires Sound(l) && StoredAt(l, row.batchId, s) && size > 0
    requires 0 < |row.bytes| <= MAX_ROW_BYTES
    requires Append(Commit(l, s, size), row, out, l')
    ensures out == Appended(l.head + 1, false)
  {
    CommitSound(l, s, size);
    var kept := Commit(l, s, size);
    assert forall t: nat :: StoredAt(kept, row.batchId, t) ==> StoredAt(l, row.batchId, t) && t > s;
  }

  // ---------------------------------------------------------------------------
  // Reading

  datatype Numbered = Numbered(seqNo: nat, row: LogRow)

  /** The empty device name leaves nothing out. */
  predicate Shown(row: LogRow, exclude: string) {
    exclude == "" || row.device != exclude
  }

  /** Rows `s..head` in order, one device's own rows optionally left out. */
  function RowsFrom(l: Log, s: nat, exclude: string): seq<Numbered>
    decreases if s <= l.head then l.head + 1 - s else 0
  {
    if s > l.head then []
    else if s in l.rows && Shown(l.rows[s], exclude) then [Numbered(s, l.rows[s])] + RowsFrom(l, s + 1, exclude)
    else RowsFrom(l, s + 1, exclude)
  }

  function RowsAfter(l: Log, after: nat, exclude: string): seq<Numbered> {
    RowsFrom(l, after + 1, exclude)
  }

  /** Exactly the stored rows above the cursor. */
  lemma {:induction false} RowsFromAre(l: Log, s: nat, exclude: string, n: Numbered)
    requires Sound(l)
    ensures n in RowsFrom(l, s, exclude) <==>
            n.seqNo in l.rows && n.seqNo >= s && n.row == l.rows[n.seqNo] && Shown(n.row, exclude)
    decreases if s <= l.head then l.head + 1 - s else 0
  {
    if s <= l.head { RowsFromAre(l, s + 1, exclude, n); }
  }

  ghost predicate Ascending(rs: seq<Numbered>) {
    forall i, j :: 0 <= i < j < |rs| ==> rs[i].seqNo < rs[j].seqNo
  }

  /** Each row once, in increasing order. */
  lemma {:induction false} RowsFromSorted(l: Log, s: nat, exclude: string)
    requires Sound(l)
    ensures Ascending(RowsFrom(l, s, exclude))
    decreases if s <= l.head then l.head + 1 - s else 0
  {
    if s <= l.head {
      RowsFromSorted(l, s + 1, exclude);
      var rest := RowsFrom(l, s + 1, exclude);
      forall n | n in rest ensures n.seqNo > s {
        RowsFromAre(l, s + 1, exclude, n);
      }
    }
  }

  /** The log over its tables. */
  class ChatLogStore {
    var rows: map<nat, LogRow>
    var headSeq: nat
    var seqFloor: nat
    var checkpointSeq: nat
    var checkpointSize: nat

    ghost function State(): Log
      reads this
    {
      Log(rows, headSeq, seqFloor, checkpointSeq, checkpointSize)
    }

    constructor ()
      ensures State() == EMPTY && Sound(State())
    {
      rows, headSeq, seqFloor, checkpointSeq, checkpointSize := map[], 0, 0, 0, 0;
    }

    method AppendRow(row: LogRow) returns (out: AppendOutcome)
      requires Sound(State())
      modifies this
      ensures Sound(State()) && Append(old(State()), row, out, State())
    {
      ghost var l := State();
      if |row.bytes| == 0 { return Empty; }
      if |row.bytes| > MAX_ROW_BYTES { return TooLarge; }
      var existing := FindBatch(rows, row.batchId);
      if existing.Some? {
        assert StoredAt(l, row.batchId, existing.value);
        return Appended(existing.value, true);
      }
      assert forall s :: !StoredAt(l, row.batchId, s);
      var n := headSeq + 1;
      rows := rows[n := row];
      headSeq := n;
      out := Appended(n, false);
      AppendSound(l, row, out, State());
    }

    method CommitCheckpoint(covered: nat, size: nat) returns (out: CommitOutcome)
      requires Sound(State())
      modifies this
      ensures Sound(State()) && State() == Commit(old(State()), covered, size)
      ensures out.EmptyCheckpoint? <==> size == 0
      ensures out.FloorRegression? <==> size > 0 && covered < old(seqFloor)
      ensures out.AheadOfHead? <==> size > 0 && covered > old(headSeq)
      ensures out.Committed? ==> out.seqFloor == covered && out.pruned + |rows| == |old(rows)|
    {
      ghost var l := State();
      CommitSound(l, covered, size);
      if size == 0 { return EmptyCheckpoint; }
      if covered < seqFloor { return FloorRegression; }
      if covered > headSeq { return AheadOfHead; }
      var before := |rows|;
      rows := map s | s in rows && s > covered :: rows[s];
      FewerRows(rows, l.rows);
      var pruned := before - |rows|;
      seqFloor, checkpointSeq, checkpointSize := covered, covered, size;
      out := Committed(covered, pruned);
    }
  }

  lemma FewerRows(a: map<nat, LogRow>, b: map<nat, LogRow>)
    requires a.Keys <= b.Keys
    ensures |a| <= |b|
  {
    assert b.Keys == a.Keys + (b.Keys - a.Keys);
    assert |a.Keys| <= |b.Keys|;
  }

  method FindBatch(rows: map<nat, LogRow>, batchId: string) returns (found: Option<nat>)
    ensures found.Some? ==> found.value in rows && rows[found.value].batchId == batchId
    ensures found.None? ==> forall s :: s in rows ==> rows[s].batchId != batchId
  {
    var todo := rows.Keys;
    while todo != {}
      invariant todo <= rows.Keys
      invariant forall s :: s in rows && s !in todo ==> rows[s].batchId != batchId
      decreases |todo|
    {
      var s :| s in todo;
      if rows[s].batchId == batchId { return Some(s); }
      todo := todo - {s};
    }
    found := None;
  }
}
