/**
 At-least-once delivery: an op that was applied once can be replayed later without effect,
 unless the row was created or revived in between.
 */
module RegistryReplay {
  import opened Wrappers
  import opened Hlc
  import opened RegistryMerge

  /** Nothing in the op is newer than what the row holds. */
  predicate Settled(row: Option<Row>, op: Op) {
    match row
    case None => op.kind.Update?
    case Some(r) =>
      if r.deleted then op.kind.Update? || (r.delHlc.Some? && !Less(r.delHlc.value, op.hlc))
      else if op.kind.Delete? then !NewerThanRow(op.hlc, r)
      else forall f :: f in op.writes ==> f in r.clocks && !Less(r.clocks[f], ClockFor(op, f))
  }

  /** Writers stamp every op with one clock; upserts and updates write at least one field. */
  predicate Plain(op: Op) {
    op.kind.Delete? || (op.clocks == map[] && op.writes != map[])
  }

  /** The step from `before` to `after` brought the row (back) to life. */
  predicate Revives(before: Option<Row>, after: Option<Row>) {
    !IsLive(before) && IsLive(after)
  }

  predicate NeverRevives(row: Option<Row>, ops: seq<Op>)
    decreases |ops|
  {
    ops == [] || (!Revives(row, Apply(row, ops[0]).row) && NeverRevives(Apply(row, ops[0]).row, ops[1..]))
  }

  /** Applying an op changes nothing exactly when the row is settled against it. */
  lemma SettledIffNoChange(row: Option<Row>, op: Op)
    ensures Settled(row, op) <==> !Apply(row, op).changed
    ensures Settled(row, op) ==> Apply(row, op).row == row
  {
    if IsLive(row) && !op.kind.Delete? {
      var r := row.value;
      if Settled(row, op) {
        WriteOfNothing(r, op);
      } else {
        var f :| f in op.writes && !(f in r.clocks && !Less(r.clocks[f], ClockFor(op, f)));
        assert Wins(r, op, f);
      }
    }
  }

  /** An op just applied is settled. */
  lemma AppliedSettles(row: Option<Row>, op: Op)
    ensures Settled(Apply(row, op).row, op)
  {
    LessIrreflexive(op.hlc);
    var out := Apply(row, op).row;
    if IsLive(out) && !op.kind.Delete? {
      var base := if row.None? then FreshRow(op.key)
                  else if row.value.deleted then row.value.(deleted := false, fields := map[], clocks := map[])
                  else row.value;
      forall f | f in op.writes ensures f in out.value.clocks && !Less(out.value.clocks[f], ClockFor(op, f)) {
        WriteAt(base, op, f);
        LessIrreflexive(ClockFor(op, f));
      }
    }
  }

  /** Field clocks never go back on a live row. */
  lemma WriteKeepsClocks(r: Row, o: Op, f: string, c: Clock)
    requires f in r.clocks && !Less(r.clocks[f], c)
    ensures f in Write(r, o).clocks && !Less(Write(r, o).clocks[f], c)
  {
    WriteAt(r, o, f);
    if Wins(r, o, f) && Less(ClockFor(o, f), c) { LessTransitive(r.clocks[f], ClockFor(o, f), c); }
  }

  /** A newer delete stays at or above whatever the row already beat. */
  lemma NotNewerThanWrite(r: Row, o: Op, h: Clock)
    requires !NewerThanRow(h, r)
    ensures !NewerThanRow(h, Write(r, o))
  {
    if Newer(h, r.delHlc) {
      var f :| f in r.clocks && !Less(r.clocks[f], h);
      WriteKeepsClocks(r, o, f, h);
    }
  }

  lemma BeyondRowIsBeyond(r: Row, h: Clock, g: Clock)
    requires NewerThanRow(g, r) && !NewerThanRow(h, r)
    ensures !Less(g, h)
  {
    if Less(g, h) {
      forall f | f in r.clocks ensures Less(r.clocks[f], h) { LessTransitive(r.clocks[f], g, h); }
      if r.delHlc.Some? { LessTransitive(r.delHlc.value, g, h); }
    }
  }

  /** Settledness survives any step that does not bring the row to life. */
  lemma SettledSurvives(row: Option<Row>, op: Op, o: Op)
    requires Plain(op) && Settled(row, op)
    requires !Revives(row, Apply(row, o).row)
    ensures Settled(Apply(row, o).row, op)
  {
    var out := Apply(row, o).row;
    if IsLive(row) {
      var r := row.value;
      if !o.kind.Delete? {
        if op.kind.Delete? {
          NotNewerThanWrite(r, o, op.hlc);
        } else {
          forall f | f in op.writes ensures f in out.value.clocks && !Less(out.value.clocks[f], ClockFor(op, f)) {
            WriteKeepsClocks(r, o, f, ClockFor(op, f));
          }
        }
      } else if NewerThanRow(o.hlc, r) {
        if !op.kind.Delete? {
          var f :| f in op.writes;
          assert !Less(r.clocks[f], op.hlc);
        }
        BeyondRowIsBeyond(r, op.hlc, o.hlc);
      }
    } else if row.Some? && o.kind.Delete? && Newer(o.hlc, row.value.delHlc) && !op.kind.Update? {
      if Less(o.hlc, op.hlc) { LessTransitive(row.value.delHlc.value, o.hlc, op.hlc); }
    }
  }

  lemma {:induction false} SettledSurvivesRun(row: Option<Row>, op: Op, later: seq<Op>)
    requires Plain(op) && Settled(row, op) && NeverRevives(row, later)
    ensures Settled(Run(row, later), op)
    decreases |later|
  {
    if later != [] {
      SettledSurvives(row, op, later[0]);
      SettledSurvivesRun(Apply(row, later[0]).row, op, later[1..]);
    }
  }

  /** Replaying an applied op after any later ops that never create or revive the row is a no-op. */
  lemma ReplayIsNoOp(row: Option<Row>, op: Op, later: seq<Op>)
    requires Plain(op)
    requires NeverRevives(Apply(row, op).row, later)
    ensures var now := Run(Apply(row, op).row, later);
            Apply(now, op) == Applied(now, false)
  {
    AppliedSettles(row, op);
    SettledSurvivesRun(Apply(row, op).row, op, later);
    SettledIffNoChange(Run(Apply(row, op).row, later), op);
  }

  // ---------------------------------------------------------------------------
  // A run that changes a row never leads back to it

  /** `b` is a later tombstone clock than `a`. */
  predicate LaterTomb(a: Option<Clock>, b: Option<Clock>) {
    b.Some? && Newer(b.value, a)
  }

  /** Field `f` carries a newer write in `s` than in `r`. */
  predicate NewerField(r: Row, s: Row, f: string) {
    f in s.clocks && Newer(s.clocks[f], Lookup(r.clocks, f))
  }

  /** `y` has moved on from `x`: a row exists, a later tombstone, a revival, or a newer field. */
  ghost predicate Beyond(x: Option<Row>, y: Option<Row>) {
    y.Some? && (x.Some? ==>
      var r, s := x.value, y.value;
      || LaterTomb(r.delHlc, s.delHlc)
      || (r.delHlc == s.delHlc && !s.deleted && (r.deleted || exists f :: NewerField(r, s, f))))
  }

  lemma BeyondDiffers(x: Option<Row>, y: Option<Row>)
    requires Beyond(x, y)
    ensures x.None? || x.value.delHlc != y.value.delHlc || x.value.deleted != y.value.deleted || x.value.clocks != y.value.clocks
  {
    if x.Some? {
      var r, s := x.value, y.value;
      if r.delHlc.Some? { LessIrreflexive(r.delHlc.value); }
      forall f | NewerField(r, s, f) ensures r.clocks != s.clocks { LessIrreflexive(s.clocks[f]); }
    }
  }

  /** A change moves the row on. */
  lemma ChangeIsBeyond(x: Option<Row>, op: Op)
    requires !Settled(x, op)
    ensures Beyond(x, Apply(x, op).row)
  {
    SettledIffNoChange(x, op);
    if IsLive(x) && !op.kind.Delete? {
      var r := x.value;
      var f :| f in op.writes && Wins(r, op, f);
      WriteAt(r, op, f);
      assert NewerField(r, Write(r, op), f);
    }
  }

  /** No later op moves it back. */
  lemma BeyondStays(x: Option<Row>, y: Option<Row>, op: Op)
    requires Beyond(x, y)
    ensures Beyond(x, Apply(y, op).row)
  {
    if x.Some? {
      var r, s, z := x.value, y.value, Apply(y, op).row.value;
      if z.delHlc != s.delHlc {
        assert LaterTomb(s.delHlc, z.delHlc);
        if LaterTomb(r.delHlc, s.delHlc) && r.delHlc.Some? {
          LessTransitive(r.delHlc.value, s.delHlc.value, z.delHlc.value);
        }
      } else if !LaterTomb(r.delHlc, s.delHlc) && !r.deleted {
        var f :| NewerField(r, s, f);
        if z != s { NewerFieldStays(r, s, op, f); }
      }
    }
  }

  lemma NewerFieldStays(r: Row, s: Row, op: Op, f: string)
    requires NewerField(r, s, f)
    ensures NewerField(r, Write(s, op), f)
  {
    WriteAt(s, op, f);
    if Wins(s, op, f) && f in r.clocks { LessTransitive(r.clocks[f], s.clocks[f], ClockFor(op, f)); }
  }

  lemma {:induction false} BeyondStaysRun(x: Option<Row>, y: Option<Row>, ops: seq<Op>)
    requires Beyond(x, y)
    ensures Beyond(x, Run(y, ops))
    decreases |ops|
  {
    if ops != [] {
      BeyondStays(x, y, ops[0]);
      BeyondStaysRun(x, Apply(y, ops[0]).row, ops[1..]);
    }
  }

  /** Any row and any ops, plain or not: either each op is settled and the run changes nothing, or
      the row has moved on for good. */
  lemma {:induction false} RunMovesOn(x: Option<Row>, ops: seq<Op>)
    ensures (forall o :: o in ops ==> Settled(x, o)) ==> Run(x, ops) == x
    ensures (exists o :: o in ops && !Settled(x, o)) ==> Beyond(x, Run(x, ops))
    decreases |ops|
  {
    if ops != [] {
      if Settled(x, ops[0]) {
        SettledIffNoChange(x, ops[0]);
        RunMovesOn(x, ops[1..]);
        assert forall o :: o in ops ==> o == ops[0] || o in ops[1..];
      } else {
        assert ops[0] in ops;
        ChangeIsBeyond(x, ops[0]);
        BeyondStaysRun(x, Apply(x, ops[0]).row, ops[1..]);
      }
    }
  }

  /** A run leaves a row as it was if and only if each of its ops alone would. */
  lemma RunIsStillIffSettled(x: Option<Row>, ops: seq<Op>)
    ensures Run(x, ops) == x <==> forall o :: o in ops ==> Settled(x, o)
  {
    RunMovesOn(x, ops);
    if exists o :: o in ops && !Settled(x, o) { BeyondDiffers(x, Run(x, ops)); }
  }

  // ---------------------------------------------------------------------------
  // Runs that end without the row

  /** Some clock on the row is at or above the op's. */
  predicate Covered(row: Option<Row>, op: Op) {
    row.Some? && if row.value.deleted then !Newer(op.hlc, row.value.delHlc) else !NewerThanRow(op.hlc, row.value)
  }

  lemma AppliedIsCovered(row: Option<Row>, op: Op)
    requires Plain(op) && !op.kind.Update?
    ensures Covered(Apply(row, op).row, op)
  {
    AppliedSettles(row, op);
    var out := Apply(row, op).row;
    if IsLive(out) && op.kind.Upsert? {
      var f :| f in op.writes;
      assert f in out.value.clocks && !Less(out.value.clocks[f], op.hlc);
    }
  }

  lemma CoveredSurvives(row: Option<Row>, op: Op, o: Op)
    requires Covered(row, op)
    ensures Covered(Apply(row, o).row, op)
  {
    var r := row.value;
    if IsLive(row) {
      if !o.kind.Delete? {
        NotNewerThanWrite(r, o, op.hlc);
      } else if NewerThanRow(o.hlc, r) {
        BeyondRowIsBeyond(r, op.hlc, o.hlc);
      }
    } else {
      if o.kind.Delete? && Newer(o.hlc, r.delHlc) && Less(o.hlc, op.hlc) { LessTransitive(r.delHlc.value, o.hlc, op.hlc); }
    }
  }

  lemma {:induction false} CoveredSurvivesRun(row: Option<Row>, op: Op, ops: seq<Op>)
    requires Covered(row, op)
    ensures Covered(Run(row, ops), op)
    decreases |ops|
  {
    if ops != [] {
      CoveredSurvives(row, op, ops[0]);
      CoveredSurvivesRun(Apply(row, ops[0]).row, op, ops[1..]);
    }
  }

  /** When a run of plain ops leaves no live row, each of its ops is settled. */
  lemma {:induction false} DeadRunSettles(row: Option<Row>, ops: seq<Op>, o: Op)
    requires Plain(o) && o in ops && !IsLive(Run(row, ops))
    ensures Settled(Run(row, ops), o)
    decreases |ops|
  {
    if !o.kind.Update? {
      var next := Apply(row, ops[0]).row;
      if ops[0] == o {
        AppliedIsCovered(row, o);
        CoveredSurvivesRun(next, o, ops[1..]);
      } else {
        DeadRunSettles(next, ops[1..], o);
      }
    }
  }

  /** Replaying any op at once is a no-op, plain or not. */
  lemma ImmediateReplayIsNoOp(row: Option<Row>, op: Op)
    ensures var now := Apply(row, op).row;
            Apply(now, op) == Applied(now, false)
  {
    AppliedSettles(row, op);
    SettledIffNoChange(Apply(row, op).row, op);
  }

  /** After a revival the replay of an older op does change the row. */
  lemma ReplayAfterRevivalChanges(key: Key)
    ensures var op := Op(key, Upsert, map["title" := Some("a")], "1", map[]);
            var del, up := Op(key, Delete, map[], "2", map[]), Op(key, Upsert, map["name" := Some("b")], "3", map[]);
            Apply(Apply(Apply(Apply(None, op).row, del).row, up).row, op).changed
  {
    var op := Op(key, Upsert, map["title" := Some("a")], "1", map[]);
    var del, up := Op(key, Delete, map[], "2", map[]), Op(key, Upsert, map["name" := Some("b")], "3", map[]);
    assert Less("1", "2") && Less("2", "3");
    var a := Apply(None, op).row.value;
    forall f ensures f in a.clocks ==> a.clocks[f] == "1" { WriteAt(FreshRow(key), op, f); }
    var d := Apply(Some(a), del).row.value;
    assert d == Tombstone(a, "2");
    var base := d.(deleted := false);
    var u := Apply(Some(d), up).row.value;
    WriteAt(base, up, "title");
    assert Lookup(u.clocks, "title") == None;
    assert Wins(u, op, "title");
  }

  /** An upsert that writes no field leaves no clock behind, so a delete older than it can
      tombstone the row and its replay then revives it: the reason `Plain` asks for a field. */
  lemma EmptyUpsertReplayRevives(key: Key)
    ensures var op, del := Op(key, Upsert, map[], "2", map[]), Op(key, Delete, map[], "1", map[]);
            Apply(Apply(Apply(None, op).row, del).row, op).changed
  {
    var op, del := Op(key, Upsert, map[], "2", map[]), Op(key, Delete, map[], "1", map[]);
    var a := Apply(None, op).row.value;
    WriteOfNothing(FreshRow(key), op);
    assert NewerThanRow("1", a);
    assert Less("1", "2");
  }
}
