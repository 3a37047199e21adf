/**
 Merge convergence: the row that any run of upserts and updates produces is the per-field
 maximum by clock, so order and duplication do not matter.
 */
module RegistryConvergence {
  import opened Wrappers
  import opened Hlc
  import opened RegistryMerge
  import opened RegistryReplay

  /** Two writes of one field at one clock carry one value. */
  ghost predicate Agree(base: Row, ops: set<Op>) {
    && (forall o, p, f :: o in ops && p in ops && f in o.writes && f in p.writes && ClockFor(o, f) == ClockFor(p, f)
          ==> o.writes[f] == p.writes[f])
    && (forall o, f :: o in ops && f in o.writes && f in base.clocks && ClockFor(o, f) == base.clocks[f]
          ==> o.writes[f] == Lookup(base.fields, f))
  }

  /** Field `f` of `r` is the newest write among the base row and the ops. */
  ghost predicate FieldIsMax(base: Row, ops: set<Op>, r: Row, f: string) {
    if forall o :: o in ops ==> f !in o.writes then
      Lookup(r.clocks, f) == Lookup(base.clocks, f) && Lookup(r.fields, f) == Lookup(base.fields, f)
    else
      && f in r.clocks
      && (f in base.clocks ==> !Less(r.clocks[f], base.clocks[f]))
      && (forall o :: o in ops && f in o.writes ==> !Less(r.clocks[f], ClockFor(o, f)))
      && (|| (f in base.clocks && r.clocks[f] == base.clocks[f] && Lookup(r.fields, f) == Lookup(base.fields, f))
          || (exists o :: o in ops && f in o.writes && r.clocks[f] == ClockFor(o, f) && Lookup(r.fields, f) == o.writes[f]))
  }

  /** `r` is the per-field clock maximum of `base` and `ops`, whatever order they came in. */
  ghost predicate IsMerge(base: Row, ops: set<Op>, r: Row) {
    && r == base.(fields := r.fields, clocks := r.clocks)
    && forall f :: FieldIsMax(base, ops, r, f)
  }

  lemma MergeFieldUnique(base: Row, ops: set<Op>, r: Row, s: Row, f: string)
    requires Agree(base, ops)
    requires FieldIsMax(base, ops, r, f) && FieldIsMax(base, ops, s, f)
    ensures Lookup(r.clocks, f) == Lookup(s.clocks, f) && Lookup(r.fields, f) == Lookup(s.fields, f)
  {
    if exists o :: o in ops && f in o.writes {
      LessTotal(r.clocks[f], s.clocks[f]);
      LessIrreflexive(r.clocks[f]);
    }
  }

  lemma MergeUnique(base: Row, ops: set<Op>, r: Row, s: Row)
    requires Agree(base, ops)
    requires IsMerge(base, ops, r) && IsMerge(base, ops, s)
    ensures r == s
  {
    forall f ensures Lookup(r.clocks, f) == Lookup(s.clocks, f) && Lookup(r.fields, f) == Lookup(s.fields, f) {
      assert FieldIsMax(base, ops, r, f) && FieldIsMax(base, ops, s, f);
      MergeFieldUnique(base, ops, r, s, f);
    }
    SameMap(r.clocks, s.clocks);
    SameMap(r.fields, s.fields);
  }

  lemma MergeFieldStep(base: Row, ops: set<Op>, r: Row, op: Op, f: string)
    requires FieldIsMax(base, ops, r, f)
    ensures FieldIsMax(base, ops + {op}, Write(r, op), f)
  {
    var w, all := Write(r, op), ops + {op};
    WriteAt(r, op, f);
    if f !in op.writes {
      assert forall o :: o in all && f in o.writes ==> o in ops;
    } else {
      var c := ClockFor(op, f);
      assert op in all;
      LessIrreflexive(c);
      if Wins(r, op, f) {
        assert w.clocks[f] == c;
        if f in r.clocks {
          LessIrreflexive(r.clocks[f]);
          NotLessThanSmaller(r.clocks[f], c, base, ops, f);
        }
        assert op in all && f in op.writes && w.clocks[f] == ClockFor(op, f) && Lookup(w.fields, f) == op.writes[f];
      } else {
        if forall o :: o in ops ==> f !in o.writes { LessIrreflexive(r.clocks[f]); }
      }
    }
  }

  /** What is not above `a` is not above the larger `b`. */
  lemma NotLessThanSmaller(a: Clock, b: Clock, base: Row, ops: set<Op>, f: string)
    requires Less(a, b)
    ensures f in base.clocks && !Less(a, base.clocks[f]) ==> !Less(b, base.clocks[f])
    ensures forall o :: o in ops && f in o.writes && !Less(a, ClockFor(o, f)) ==> !Less(b, ClockFor(o, f))
  {
    forall c: Clock | Less(b, c) ensures Less(a, c) { LessTransitive(a, b, c); }
  }

  ghost function OpSet(ops: seq<Op>): set<Op> {
    set o | o in ops
  }

  lemma OpSetEmpty(ops: seq<Op>)
    ensures OpSet(ops) == {} <==> ops == []
  {
    if ops != [] { assert ops[0] in OpSet(ops); }
  }

  lemma {:induction false} RunIsMerge(base: Row, ops: seq<Op>)
    requires !base.deleted
    requires forall o :: o in ops ==> !o.kind.Delete?
    ensures IsLive(Run(Some(base), ops))
    ensures IsMerge(base, OpSet(ops), Run(Some(base), ops).value)
  {
    if ops == [] {
      assert forall f :: FieldIsMax(base, {}, base, f);
    } else {
      var init, op := ops[..|ops| - 1], ops[|ops| - 1];
      RunIsMerge(base, init);
      RunSnoc(Some(base), ops);
      var r := Run(Some(base), init).value;
      assert OpSet(ops) == OpSet(init) + {op};
      forall f ensures FieldIsMax(base, OpSet(ops), Write(r, op), f) {
        assert FieldIsMax(base, OpSet(init), r, f);
        MergeFieldStep(base, OpSet(init), r, op, f);
      }
    }
  }

  /** From a live row, every order and repetition of the same upserts and updates gives one row. */
  lemma MergeConverges(base: Row, ops: seq<Op>, ops': seq<Op>)
    requires !base.deleted
    requires OpSet(ops) == OpSet(ops')
    requires forall o :: o in ops ==> !o.kind.Delete?
    requires Agree(base, OpSet(ops))
    ensures Run(Some(base), ops) == Run(Some(base), ops')
  {
    assert forall o :: o in ops' ==> o in OpSet(ops);
    RunIsMerge(base, ops);
    RunIsMerge(base, ops');
    MergeUnique(base, OpSet(ops), Run(Some(base), ops).value, Run(Some(base), ops').value);
  }

  /** From no row, a run of upserts is the run from the empty row. */
  lemma CreateIsRunFromFresh(key: Key, ops: seq<Op>)
    requires ops != []
    requires forall o :: o in ops ==> o.kind.Upsert? && o.key == key
    ensures Run(None, ops) == Run(Some(FreshRow(key)), ops)
  {
    assert ops[0] in ops;
  }

  /** From no row, every order and repetition of the same upserts gives one row. */
  lemma CreationConverges(key: Key, ops: seq<Op>, ops': seq<Op>)
    requires OpSet(ops) == OpSet(ops')
    requires forall o :: o in ops ==> o.kind.Upsert? && o.key == key
    requires Agree(FreshRow(key), OpSet(ops))
    ensures Run(None, ops) == Run(None, ops')
  {
    assert forall o :: o in ops' ==> o in OpSet(ops);
    OpSetEmpty(ops);
    OpSetEmpty(ops');
    if ops != [] {
      CreateIsRunFromFresh(key, ops);
      CreateIsRunFromFresh(key, ops');
      MergeConverges(FreshRow(key), ops, ops');
    }
  }

  lemma RunTwo(base: Option<Row>, a: Op, b: Op)
    ensures Run(base, [a, b]) == Apply(Apply(base, a).row, b).row
  {
    var r := Apply(base, a).row;
    assert [a, b][1..] == [b] && [b][1..] == [];
    assert Run(r, [b]) == Run(Apply(r, b).row, []);
  }

  // ---------------------------------------------------------------------------
  // Deletes

  /** Applying a delete before or after a stamped write makes no difference. */
  predicate Commutes(row: Option<Row>, u: Op, d: Op) {
    match row
    case None => u.kind.Update? || Less(u.hlc, d.hlc)
    case Some(r) =>
      if r.deleted then u.kind.Update? || !Newer(u.hlc, r.delHlc) || !Newer(d.hlc, r.delHlc) || Less(u.hlc, d.hlc)
      else !NewerThanRow(d.hlc, r) || Less(u.hlc, d.hlc)
  }

  /** A delete newer than the row beats a write to it exactly when it is newer than the write. */
  lemma DeleteAfterWrite(r: Row, u: Op, h: Clock)
    requires Plain(u) && !u.kind.Delete? && NewerThanRow(h, r)
    ensures NewerThanRow(h, Write(r, u)) <==> Less(u.hlc, h)
  {
    var w := Write(r, u);
    if Less(u.hlc, h) {
      forall f | f in w.clocks ensures Less(w.clocks[f], h) { WriteAt(r, u, f); }
    } else {
      var f :| f in u.writes;
      WriteAt(r, u, f);
      if Less(h, u.hlc) && f in r.clocks { LessTransitive(r.clocks[f], h, u.hlc); }
      LessTotal(u.hlc, h);
      assert w.clocks[f] == u.hlc;
    }
  }

  lemma CommutesLive(r: Row, u: Op, d: Op)
    requires !r.deleted && Plain(u) && !u.kind.Delete? && d.kind.Delete?
    ensures Run(Some(r), [u, d]) == Run(Some(r), [d, u]) <==> Commutes(Some(r), u, d)
  {
    RunTwo(Some(r), u, d);
    RunTwo(Some(r), d, u);
    if !NewerThanRow(d.hlc, r) {
      NotNewerThanWrite(r, u, d.hlc);
    } else {
      DeleteAfterWrite(r, u, d.hlc);
      LessTotal(u.hlc, d.hlc);
      LessIrreflexive(d.hlc);
      if Less(u.hlc, d.hlc) && Less(d.hlc, u.hlc) { LessTransitive(u.hlc, d.hlc, u.hlc); LessIrreflexive(u.hlc); }
    }
  }

  lemma CommutesDead(row: Option<Row>, u: Op, d: Op)
    requires !IsLive(row) && Plain(u) && !u.kind.Delete? && d.kind.Delete?
    requires row.Some? || u.key == d.key
    ensures Run(row, [u, d]) == Run(row, [d, u]) <==> Commutes(row, u, d)
  {
    RunTwo(row, u, d);
    RunTwo(row, d, u);
    LessTotal(u.hlc, d.hlc);
    LessIrreflexive(d.hlc);
    LessIrreflexive(u.hlc);
    if Less(u.hlc, d.hlc) && Less(d.hlc, u.hlc) { LessTransitive(u.hlc, d.hlc, u.hlc); }
    var base := if row.None? then FreshRow(u.key) else row.value.(deleted := false, fields := map[], clocks := map[]);
    if NewerThanRow(d.hlc, base) {
      DeleteAfterWrite(base, u, d.hlc);
    } else {
      NotNewerThanWrite(base, u, d.hlc);
      var h := base.delHlc.value;
      if Less(h, u.hlc) && !Less(h, d.hlc) && Less(u.hlc, d.hlc) { LessTransitive(h, u.hlc, d.hlc); }
    }
    if row.Some? && row.value.delHlc.Some? {
      var h := row.value.delHlc.value;
      LessIrreflexive(h);
      if Less(h, d.hlc) && Less(d.hlc, u.hlc) { LessTransitive(h, d.hlc, u.hlc); }
    }
  }

  /** Exactly when a delete and a stamped upsert or update commute, for every row. */
  lemma DeletesCommuteExactly(row: Option<Row>, u: Op, d: Op)
    requires Plain(u) && !u.kind.Delete? && d.kind.Delete? && u.key == d.key
    ensures Run(row, [u, d]) == Run(row, [d, u]) <==> Commutes(row, u, d)
  {
    if IsLive(row) { CommutesLive(row.value, u, d); } else { CommutesDead(row, u, d); }
  }

  /** Deletes do not commute with upserts: a delete that loses to a newer upsert keeps the
      older fields, the same delete applied first clears them before the upsert revives the row. */
  lemma DeletesDoNotCommute(key: Key)
    ensures var base := Some(Row(key, 1, false, None, map["title" := "a"], map["title" := "1"]));
            var up := Op(key, Upsert, map["name" := Some("b")], "3", map[]);
            var del := Op(key, Delete, map[], "2", map[]);
            Run(base, [up, del]) != Run(base, [del, up])
  {
    var base := Row(key, 1, false, None, map["title" := "a"], map["title" := "1"]);
    var up := Op(key, Upsert, map["name" := Some("b")], "3", map[]);
    var del := Op(key, Delete, map[], "2", map[]);
    assert Less("1", "2") && !Less("3", "2");
    assert "name" in up.writes;
    DeletesCommuteExactly(Some(base), up, del);
  }
}
