/**
 Wipe recovery: every client re-seeds the rows it holds with their original clocks.
 */
module RegistryRecovery {
  import opened Wrappers
  import opened Hlc
  import opened RegistryMerge
  import opened RegistryConvergence
  import opened RegistryReplay

  const SEED_CLOCK: Clock := Encode(Stamp(0, 0), "seed")

  /** Every row the merge produces: present fields are clocked, tombstones are empty and clocked. */
  predicate WellFormed(r: Row) {
    && (forall f :: f in r.fields ==> f in r.clocks)
    && (r.deleted ==> r.delHlc.Some? && r.fields == map[] && r.clocks == map[])
  }

  lemma ApplyKeepsWellFormed(row: Option<Row>, op: Op)
    requires row.Some? ==> WellFormed(row.value)
    ensures Apply(row, op).row.Some? ==> WellFormed(Apply(row, op).row.value)
  {
    if !op.kind.Delete? && IsLive(Apply(row, op).row) {
      var base := if row.None? then FreshRow(op.key)
                  else if row.value.deleted then row.value.(deleted := false, fields := map[], clocks := map[])
                  else row.value;
      forall f | f in Write(base, op).fields ensures f in Write(base, op).clocks {
        WriteAt(base, op, f);
      }
    }
  }

  /** A row as a re-seed op: an upsert with the original clocks, or a delete for a tombstone.
      `max` is the newest clock on the row. */
  function SeedOp(row: Row, max: Option<Clock>): Op {
    if row.deleted then
      Op(row.key, Delete, map[], if row.delHlc.Some? then row.delHlc.value else SEED_CLOCK, map[])
    else
      Op(row.key, Upsert, map f | f in row.fields :: Some(row.fields[f]),
         if max.Some? then max.value else SEED_CLOCK, row.clocks)
  }

  ghost predicate IsSeedOf(op: Op, row: Row) {
    exists max :: IsMax(max, ClocksOf(row)) && op == SeedOp(row, max)
  }

  method RowToSeedOp(row: Row) returns (op: Op)
    ensures IsSeedOf(op, row)
  {
    var max := MaxClock(row);
    op := SeedOp(row, max);
  }

  /** A row has one seed. */
  lemma SeedUnique(row: Row, a: Op, b: Op)
    requires IsSeedOf(a, row) && IsSeedOf(b, row)
    ensures a == b
  {
    var m: Option<Clock> :| IsMax(m, ClocksOf(row)) && a == SeedOp(row, m);
    var n: Option<Clock> :| IsMax(n, ClocksOf(row)) && b == SeedOp(row, n);
    if m.Some? && n.Some? && m != n {
      LessTransitive(m.value, n.value, m.value);
      LessIrreflexive(m.value);
    }
  }

  /** Seeding a row onto itself changes nothing. */
  lemma SeedOntoSelf(row: Row, op: Op)
    requires WellFormed(row) && IsSeedOf(op, row)
    ensures Apply(Some(row), op) == Applied(Some(row), false)
  {
    assert Settled(Some(row), op) by {
      if row.deleted { LessIrreflexive(op.hlc); }
      else {
        forall f | f in op.writes ensures !Less(row.clocks[f], ClockFor(op, f)) { LessIrreflexive(row.clocks[f]); }
      }
    }
    SettledIffNoChange(Some(row), op);
  }

  /** Seeding an empty table restores the fields with their clocks; clocks of cleared fields,
      the old tombstone clock and the server seq are not carried. */
  lemma SeedRestores(row: Row, op: Op)
    requires WellFormed(row) && !row.deleted && IsSeedOf(op, row)
    ensures Apply(None, op) ==
            Applied(Some(Row(row.key, 0, false, None, row.fields, map f | f in row.clocks && f in row.fields :: row.clocks[f])), true)
    ensures Apply(None, op).row == Some(row.(seqNo := 0)) <==> row.delHlc.None? && row.clocks.Keys == row.fields.Keys
  {
    var out := Write(FreshRow(row.key), op);
    var clocks := map f | f in row.clocks && f in row.fields :: row.clocks[f];
    forall f ensures Lookup(out.fields, f) == Lookup(row.fields, f) && Lookup(out.clocks, f) == Lookup(clocks, f) {
      WriteAt(FreshRow(row.key), op, f);
    }
    SameMap(out.fields, row.fields);
    SameMap(out.clocks, clocks);
    if row.clocks.Keys == row.fields.Keys { assert clocks == row.clocks; }
  }

  /** Over a tombstone, the seed of a live row revives it exactly when some clock on the row is newer
      than the tombstone (a row without clocks counts as written at the beginning of time), and then
      restores the row's fields with their clocks. */
  lemma SeedOverTombstone(row: Row, op: Op, t: Row)
    requires WellFormed(row) && !row.deleted && IsSeedOf(op, row) && t.deleted
    ensures Apply(Some(t), op).changed <==>
            if ClocksOf(row) == {} then Newer(SEED_CLOCK, t.delHlc) else exists c :: c in ClocksOf(row) && Newer(c, t.delHlc)
    ensures Apply(Some(t), op).changed ==>
            var r := Apply(Some(t), op).row.value;
            !r.deleted && r.fields == row.fields && forall f :: f in row.fields ==> Lookup(r.clocks, f) == Some(row.clocks[f])
  {
    var max :| IsMax(max, ClocksOf(row)) && op == SeedOp(row, max);
    if max.Some? && t.delHlc.Some? {
      forall c | c in ClocksOf(row) && Less(t.delHlc.value, c) ensures Less(t.delHlc.value, max.value) {
        if c != max.value { LessTransitive(t.delHlc.value, c, max.value); }
      }
    }
    if Apply(Some(t), op).changed {
      var base := t.(deleted := false, fields := map[], clocks := map[]);
      var r := Write(base, op);
      forall f ensures Lookup(r.fields, f) == Lookup(row.fields, f)
               ensures f in row.fields ==> Lookup(r.clocks, f) == Some(row.clocks[f])
      {
        WriteAt(base, op, f);
      }
      SameMap(r.fields, row.fields);
    }
  }

  lemma TombstoneSeedRestores(row: Row, op: Op)
    requires WellFormed(row) && row.deleted && IsSeedOf(op, row)
    ensures Apply(None, op) == Applied(Some(row.(seqNo := 0)), true)
  {}

  /** `ops` are the seeds of the copies in `sent`, in the order the server got them. */
  ghost predicate SeedsOf(sent: seq<Row>, ops: seq<Op>) {
    |sent| == |ops| && forall i :: 0 <= i < |ops| ==> IsSeedOf(ops[i], sent[i])
  }

  ghost predicate LiveCopies(key: Key, sent: seq<Row>) {
    forall r :: r in sent ==> WellFormed(r) && !r.deleted && r.key == key
  }

  /** Field `f` of the rebuilt row is the newest present copy, under its original clock. */
  ghost predicate RebuiltField(sent: seq<Row>, out: Row, f: string) {
    if forall r :: r in sent ==> f !in r.fields then f !in out.fields && f !in out.clocks
    else
      && f in out.clocks && f in out.fields
      && (exists r :: r in sent && Lookup(r.fields, f) == Some(out.fields[f]) && Lookup(r.clocks, f) == Some(out.clocks[f]))
      && (forall r :: r in sent && f in r.fields && f in r.clocks ==> !Less(out.clocks[f], r.clocks[f]))
  }

  /** The op writes `f` exactly as the copy holds it. */
  predicate CarriesField(o: Op, r: Row, f: string) {
    if f in r.fields then f in o.writes && o.writes[f] == Some(r.fields[f]) && Lookup(r.clocks, f) == Some(ClockFor(o, f))
    else f !in o.writes
  }

  lemma SeedsCarryField(key: Key, sent: seq<Row>, ops: seq<Op>, f: string)
    requires LiveCopies(key, sent) && SeedsOf(sent, ops)
    ensures forall i :: 0 <= i < |ops| ==> CarriesField(ops[i], sent[i], f)
  {
    forall i | 0 <= i < |ops| ensures CarriesField(ops[i], sent[i], f) {
      assert sent[i] in sent;
    }
  }

  lemma RebuiltFromMerge(key: Key, sent: seq<Row>, ops: seq<Op>, out: Row, f: string)
    requires |sent| == |ops| && forall i :: 0 <= i < |ops| ==> CarriesField(ops[i], sent[i], f)
    requires FieldIsMax(FreshRow(key), OpSet(ops), out, f)
    ensures RebuiltField(sent, out, f)
  {
    if i :| 0 <= i < |sent| && f in sent[i].fields {
      assert CarriesField(ops[i], sent[i], f);
      assert ops[i] in OpSet(ops) && f in ops[i].writes;
      var o :| o in OpSet(ops) && f in o.writes && out.clocks[f] == ClockFor(o, f) && Lookup(out.fields, f) == o.writes[f];
      RebuiltPresent(sent, ops, out, f, sent[i], o);
    } else {
      NobodyWrites(sent, ops, f);
      RebuiltAbsent(sent, out, f);
    }
  }

  lemma RebuiltAbsent(sent: seq<Row>, out: Row, f: string)
    requires (forall i :: 0 <= i < |sent| ==> f !in sent[i].fields) && f !in out.fields && f !in out.clocks
    ensures RebuiltField(sent, out, f)
  {}

  lemma RebuiltPresent(sent: seq<Row>, ops: seq<Op>, out: Row, f: string, r: Row, o: Op)
    requires |sent| == |ops| && forall i :: 0 <= i < |ops| ==> CarriesField(ops[i], sent[i], f)
    requires r in sent && f in r.fields && o in OpSet(ops) && f in o.writes
    requires Lookup(out.clocks, f) == Some(ClockFor(o, f)) && Lookup(out.fields, f) == o.writes[f]
    requires forall p :: p in OpSet(ops) && f in p.writes ==> !Less(ClockFor(o, f), ClockFor(p, f))
    ensures RebuiltField(sent, out, f)
  {
    WinnerIsCopy(sent, ops, o, f);
    NoneNewer(sent, ops, f, ClockFor(o, f));
  }

  lemma WinnerIsCopy(sent: seq<Row>, ops: seq<Op>, o: Op, f: string)
    requires |sent| == |ops| && forall i :: 0 <= i < |ops| ==> CarriesField(ops[i], sent[i], f)
    requires o in OpSet(ops) && f in o.writes
    ensures o.writes[f].Some?
    ensures exists r :: r in sent && Lookup(r.fields, f) == o.writes[f] && Lookup(r.clocks, f) == Some(ClockFor(o, f))
  {
    var j :| 0 <= j < |ops| && ops[j] == o;
    assert CarriesField(ops[j], sent[j], f);
    assert sent[j] in sent;
  }

  lemma NoneNewer(sent: seq<Row>, ops: seq<Op>, f: string, h: Clock)
    requires |sent| == |ops| && forall i :: 0 <= i < |ops| ==> CarriesField(ops[i], sent[i], f)
    requires forall o :: o in OpSet(ops) && f in o.writes ==> !Less(h, ClockFor(o, f))
    ensures forall t :: t in sent && f in t.fields && f in t.clocks ==> !Less(h, t.clocks[f])
  {
    forall t | t in sent && f in t.fields && f in t.clocks ensures !Less(h, t.clocks[f]) {
      var k :| 0 <= k < |sent| && sent[k] == t;
      assert CarriesField(ops[k], sent[k], f);
      assert ops[k] in OpSet(ops);
    }
  }

  lemma NobodyWrites(sent: seq<Row>, ops: seq<Op>, f: string)
    requires |sent| == |ops| && forall i :: 0 <= i < |ops| ==> CarriesField(ops[i], sent[i], f)
    requires forall i :: 0 <= i < |sent| ==> f !in sent[i].fields
    ensures forall o :: o in OpSet(ops) ==> f !in o.writes
  {
    forall o | o in OpSet(ops) ensures f !in o.writes {
      var k :| 0 <= k < |ops| && ops[k] == o;
      assert CarriesField(ops[k], sent[k], f);
    }
  }

  /** The seeds of any number of live copies of a row, from any number of clients, in any order and
      repeated, rebuild the per-field clock maximum of the fields present in some copy. */
  lemma SeedsRebuild(key: Key, sent: seq<Row>, ops: seq<Op>)
    requires sent != [] && LiveCopies(key, sent) && SeedsOf(sent, ops)
    ensures IsLive(Run(None, ops))
    ensures var out := Run(None, ops).value;
            out == FreshRow(key).(fields := out.fields, clocks := out.clocks)
    ensures forall f :: RebuiltField(sent, Run(None, ops).value, f)
  {
    forall o | o in ops ensures o.kind.Upsert? && o.key == key {
      var j :| 0 <= j < |ops| && ops[j] == o;
      assert sent[j] in sent;
    }
    CreateIsRunFromFresh(key, ops);
    RunIsMerge(FreshRow(key), ops);
    var out := Run(None, ops).value;
    forall f ensures RebuiltField(sent, out, f) {
      assert FieldIsMax(FreshRow(key), OpSet(ops), out, f);
      SeedsCarryField(key, sent, ops, f);
      RebuiltFromMerge(key, sent, ops, out, f);
    }
  }

  /** Equal clocks mean the same write, across the copies the clients hold. */
  ghost predicate CopiesAgree(sent: seq<Row>) {
    forall r, s, f :: r in sent && s in sent && f in r.fields && f in s.fields && Lookup(r.clocks, f) == Lookup(s.clocks, f)
      ==> r.fields[f] == s.fields[f]
  }

  lemma RebuiltFieldUnique(sent: seq<Row>, a: Row, b: Row, f: string)
    requires CopiesAgree(sent) && RebuiltField(sent, a, f) && RebuiltField(sent, b, f)
    ensures Lookup(a.fields, f) == Lookup(b.fields, f) && Lookup(a.clocks, f) == Lookup(b.clocks, f)
  {
    if exists r :: r in sent && f in r.fields {
      LessTotal(a.clocks[f], b.clocks[f]);
      var r :| r in sent && Lookup(r.fields, f) == Some(a.fields[f]) && Lookup(r.clocks, f) == Some(a.clocks[f]);
      var s :| s in sent && Lookup(s.fields, f) == Some(b.fields[f]) && Lookup(s.clocks, f) == Some(b.clocks[f]);
      assert f in r.fields && f in s.fields;
    }
  }

  /** Clients re-seeding the same agreeing copies end with the same row, however their pushes
      interleave and repeat. */
  lemma RecoveryConverges(key: Key, sent: seq<Row>, ops: seq<Op>, sent': seq<Row>, ops': seq<Op>)
    requires sent != [] && LiveCopies(key, sent) && CopiesAgree(sent)
    requires forall r :: r in sent <==> r in sent'
    requires SeedsOf(sent, ops) && SeedsOf(sent', ops')
    ensures Run(None, ops) == Run(None, ops')
  {
    assert sent[0] in sent';
    SeedsRebuild(key, sent, ops);
    SeedsRebuild(key, sent', ops');
    var a, b := Run(None, ops).value, Run(None, ops').value;
    forall f ensures Lookup(a.fields, f) == Lookup(b.fields, f) && Lookup(a.clocks, f) == Lookup(b.clocks, f) {
      assert RebuiltField(sent, a, f) && RebuiltField(sent', b, f);
      SameCopies(sent, sent', b, f);
      RebuiltFieldUnique(sent, a, b, f);
    }
    SameMap(a.fields, b.fields);
    SameMap(a.clocks, b.clocks);
  }

  lemma SameCopies(sent: seq<Row>, sent': seq<Row>, out: Row, f: string)
    requires forall r :: r in sent <==> r in sent'
    requires RebuiltField(sent', out, f)
    ensures RebuiltField(sent, out, f)
  {}
}
