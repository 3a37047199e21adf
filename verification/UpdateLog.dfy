/**
 The session room's update log. One logical update wider than the row cap is stored as several
 rows, the first marked as a start and the others as continuations; replay joins them again.
 */
module UpdateLog {
  import opened Wrappers
  import opened Utf8

  const CHUNK_BYTES := 1_500_000

  datatype Row = Row(bytes: Bytes, cont: bool)

  function Min(a: nat, b: nat): nat {
    if a < b then a else b
  }

  // ---------------------------------------------------------------------------
  // Writing

  /** The rows of an update from offset `off` on. */
  function Chunks(u: Bytes, off: nat): seq<Row>
    requires off <= |u|
    decreases |u| - off
  {
    if off == |u| then []
    else
      var end := Min(off + CHUNK_BYTES, |u|);
      [Row(u[off..end], off != 0)] + Chunks(u, end)
  }

  /** The rows of a whole history of updates. */
  function RowsOf(us: seq<Bytes>): seq<Row> {
    if us == [] then [] else Chunks(us[0], 0) + RowsOf(us[1..])
  }

  /** No row is above the cap, none is empty, and continuations hold exactly what follows the first chunk. */
  lemma {:induction false} ChunksFit(u: Bytes, off: nat, row: Row)
    requires off <= |u| && row in Chunks(u, off)
    ensures 0 < |row.bytes| <= CHUNK_BYTES
    decreases |u| - off
  {
    var end := Min(off + CHUNK_BYTES, |u|);
    if row != Row(u[off..end], off != 0) { ChunksFit(u, end, row); }
  }

  /** Only the last row of an update is short, so no update takes more rows than it must. */
  lemma {:induction false} ChunksAreFull(u: Bytes, off: nat, i: nat)
    requires off <= |u| && i < |Chunks(u, off)|
    ensures i + 1 < |Chunks(u, off)| ==> |Chunks(u, off)[i].bytes| == CHUNK_BYTES
    decreases |u| - off
  {
    var end := Min(off + CHUNK_BYTES, |u|);
    if i > 0 { ChunksAreFull(u, end, i - 1); }
  }

  lemma {:induction false} RowsFit(us: seq<Bytes>, row: Row)
    requires row in RowsOf(us)
    ensures 0 < |row.bytes| <= CHUNK_BYTES
  {
    if row in Chunks(us[0], 0) { ChunksFit(us[0], 0, row); } else { RowsFit(us[1..], row); }
  }

  // ---------------------------------------------------------------------------
  // Replaying

  function Emit(open: Option<Bytes>): seq<Bytes> {
    if open.Some? then [open.value] else []
  }

  /** The updates read from `rows` when the bytes of `open` are already gathered. */
  function Read(open: Option<Bytes>, rows: seq<Row>): seq<Bytes>
    decreases |rows|
  {
    if rows == [] then Emit(open)
    else if open.Some? && rows[0].cont then Read(Some(open.value + rows[0].bytes), rows[1..])
    else Emit(open) + Read(Some(rows[0].bytes), rows[1..])
  }

  lemma {:induction false} ReadContinuations(acc: Bytes, u: Bytes, off: nat, rest: seq<Row>)
    requires 0 < off <= |u|
    ensures Read(Some(acc), Chunks(u, off) + rest) == Read(Some(acc + u[off..]), rest)
    decreases |u| - off
  {
    var rows := Chunks(u, off) + rest;
    if off == |u| {
      assert rows == rest && acc + u[off..] == acc;
    } else {
      var end := Min(off + CHUNK_BYTES, |u|);
      assert rows[0] == Row(u[off..end], true) && rows[1..] == Chunks(u, end) + rest;
      ReadContinuations(acc + u[off..end], u, end, rest);
      assert acc + u[off..end] + u[end..] == acc + u[off..];
    }
  }

  lemma ReadUpdate(open: Option<Bytes>, u: Bytes, rest: seq<Row>)
    requires u != []
    ensures Read(open, Chunks(u, 0) + rest) == Emit(open) + Read(Some(u), rest)
  {
    var rows := Chunks(u, 0) + rest;
    var end := Min(CHUNK_BYTES, |u|);
    assert rows[0] == Row(u[..end], false) && rows[1..] == Chunks(u, end) + rest;
    ReadContinuations(u[..end], u, end, rest);
    assert u[..end] + u[end..] == u;
  }

  function NonEmpty(us: seq<Bytes>): seq<Bytes> {
    if us == [] then [] else (if us[0] == [] then [] else [us[0]]) + NonEmpty(us[1..])
  }

  lemma {:induction false} ReadAppended(open: Option<Bytes>, us: seq<Bytes>)
    ensures Read(open, RowsOf(us)) == Emit(open) + NonEmpty(us)
    decreases |us|
  {
    if us != [] {
      if us[0] == [] {
        assert Chunks([], 0) + RowsOf(us[1..]) == RowsOf(us[1..]);
        ReadAppended(open, us[1..]);
      } else {
        ReadUpdate(open, us[0], RowsOf(us[1..]));
        ReadAppended(Some(us[0]), us[1..]);
      }
    }
  }

  lemma {:induction false} NonEmptyIsAll(us: seq<Bytes>)
    ensures |NonEmpty(us)| <= |us|
    ensures NonEmpty(us) == us <==> [] !in us
  {
    if us != [] {
      NonEmptyIsAll(us[1..]);
      assert us == [us[0]] + us[1..];
    }
  }

  /** Replay returns the updates appended, in order, exactly when none was empty; an empty update
      leaves no trace. */
  lemma ReplayRoundTrip(us: seq<Bytes>)
    ensures Read(None, RowsOf(us)) == NonEmpty(us)
    ensures Read(None, RowsOf(us)) == us <==> [] !in us
  {
    ReadAppended(None, us);
    NonEmptyIsAll(us);
  }

  /** Logs written before chunking hold one update per row, and read back so. */
  lemma {:induction false} LegacyRows(open: Option<Bytes>, rows: seq<Row>)
    requires forall r :: r in rows ==> !r.cont
    ensures Read(open, rows) == Emit(open) + seq(|rows|, i requires 0 <= i < |rows| => rows[i].bytes)
    decreases |rows|
  {
    if rows != [] {
      LegacyRows(Some(rows[0].bytes), rows[1..]);
      var all := seq(|rows|, i requires 0 <= i < |rows| => rows[i].bytes);
      var rest := seq(|rows| - 1, i requires 0 <= i < |rows| - 1 => rows[1..][i].bytes);
      assert all == [rows[0].bytes] + rest;
    }
  }

  /** Replay loses no byte of any log, well formed or not. */
  lemma {:induction false} ReadKeepsBytes(open: Option<Bytes>, rows: seq<Row>)
    ensures Concat(Read(open, rows)) == Concat(Emit(open)) + AllBytes(rows)
    decreases |rows|
  {
    if rows != [] {
      var b := rows[0].bytes;
      if open.Some? && rows[0].cont {
        ReadKeepsBytes(Some(open.value + b), rows[1..]);
        ConcatOne(open.value + b);
        ConcatOne(open.value);
      } else {
        ReadKeepsBytes(Some(b), rows[1..]);
        ConcatOne(b);
        if open.Some? {
          ConcatOne(open.value);
          var rest := Read(Some(b), rows[1..]);
          assert ([open.value] + rest)[1..] == rest;
        } else {
          assert Read(open, rows) == [] + Read(Some(b), rows[1..]) == Read(Some(b), rows[1..]);
        }
      }
    }
  }

  function AllBytes(rows: seq<Row>): Bytes {
    if rows == [] then [] else rows[0].bytes + AllBytes(rows[1..])
  }

  lemma ConcatOne(b: Bytes)
    ensures Concat([b]) == b
  {
    assert Concat([b]) == b + Concat([b][1..]);
  }

  // ---------------------------------------------------------------------------
  // The table

  class UpdateTable {
    var rows: seq<Row>

    constructor ()
      ensures rows == RowsOf([])
    {
      rows := [];
    }

    method AppendUpdateRow(update: Bytes)
      modifies this
      ensures rows == old(rows) + Chunks(update, 0)
    {
      var off := 0;
      while off < |update|
        invariant 0 <= off
        invariant rows + Chunks(update, Min(off, |update|)) == old(rows) + Chunks(update, 0)
      {
        var end := Min(off + CHUNK_BYTES, |update|);
        rows := rows + [Row(update[off..end], off != 0)];
        off := off + CHUNK_BYTES;
      }
    }

    /** The generator's output, collected. */
    method ReadUpdateRows() returns (us: seq<Bytes>)
      ensures us == Read(None, rows)
    {
      us := [];
      var parts: seq<Bytes> := [];
      var i := 0;
      while i < |rows|
        invariant 0 <= i <= |rows|
        invariant us + Read(Gathered(parts), rows[i..]) == Read(None, rows)
      {
        var row := rows[i];
        assert rows[i..][0] == row && rows[i..][1..] == rows[i + 1..];
        ghost var open := Gathered(parts);
        ghost var before := us;
        if !row.cont && |parts| > 0 {
          us := us + [Concat(parts)];
          parts := [];
        }
        GatheredSnoc(parts, row.bytes);
        assert us == before + (if open.Some? && row.cont then [] else Emit(open));
        parts := parts + [row.bytes];
        assert us + Read(Gathered(parts), rows[i + 1..]) == before + Read(open, rows[i..]);
        i := i + 1;
      }
      if |parts| > 0 { us := us + [Concat(parts)]; }
    }
  }

  function Gathered(parts: seq<Bytes>): Option<Bytes> {
    if parts == [] then None else Some(Concat(parts))
  }

  lemma GatheredSnoc(parts: seq<Bytes>, b: Bytes)
    ensures Gathered(parts + [b]) == Some(Concat(parts) + b)
    ensures parts == [] ==> Concat(parts) + b == b
  {
    ConcatParts(parts, [b]);
    ConcatOne(b);
  }
}
