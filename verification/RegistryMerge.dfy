/**
 The registry merge: rows of independently clocked fields, and the function that applies
 one op to a row.  Both sides of the wire run the same function.
 */
module RegistryMerge {
  import opened Wrappers
  import opened Hlc

  datatype Key = Key(kind: string, id: string)

  /** A field value, kept as its JSON text. */
  type Value = string

  datatype Row = Row(
    key: Key,
    seqNo: nat,                      // server seq of the batch that last touched the row
    deleted: bool,
    delHlc: Option<Clock>,         // tombstone clock
    fields: map<string, Value>,
    clocks: map<string, Clock>)    // per-field last-write clocks

  datatype OpKind = Upsert | Update | Delete

  /** `writes[f] == None` deletes the field; it is still a clocked write.
      `clocks` overrides `hlc` per field (re-seed ops carry original clocks). */
  datatype Op = Op(
    key: Key,
    kind: OpKind,
    writes: map<string, Option<Value>>,
    hlc: Clock,
    clocks: map<string, Clock>)

  datatype Applied = Applied(row: Option<Row>, changed: bool)

  function Lookup<T>(m: map<string, T>, f: string): Option<T> {
    if f in m then Some(m[f]) else None
  }

  function ClockFor(op: Op, f: string): Clock {
    if f in op.clocks then op.clocks[f] else op.hlc
  }

  function FreshRow(key: Key): Row {
    Row(key, 0, false, None, map[], map[])
  }

  predicate IsLive(row: Option<Row>) {
    row.Some? && !row.value.deleted
  }

  // ---------------------------------------------------------------------------
  // Applying one op

  /** The write of field `f` beats what the row holds. */
  predicate Wins(base: Row, op: Op, f: string) {
    f in op.writes && Newer(ClockFor(op, f), Lookup(base.clocks, f))
  }

  function FieldAfter(base: Row, op: Op, f: string): Option<Value> {
    if Wins(base, op, f) then op.writes[f] else Lookup(base.fields, f)
  }

  function ClockAfter(base: Row, op: Op, f: string): Option<Clock> {
    if Wins(base, op, f) then Some(ClockFor(op, f)) else Lookup(base.clocks, f)
  }

  function Write(base: Row, op: Op): Row {
    base.(
      fields := map f | f in base.fields.Keys + op.writes.Keys && FieldAfter(base, op, f).Some?
                    :: FieldAfter(base, op, f).value,
      clocks := map f | f in base.clocks.Keys + op.writes.Keys && ClockAfter(base, op, f).Some?
                    :: ClockAfter(base, op, f).value)
  }

  lemma WriteAt(base: Row, op: Op, f: string)
    ensures Lookup(Write(base, op).fields, f) == FieldAfter(base, op, f)
    ensures Lookup(Write(base, op).clocks, f) == ClockAfter(base, op, f)
  {}

  lemma SameMap<T>(m: map<string, T>, n: map<string, T>)
    requires forall f :: Lookup(m, f) == Lookup(n, f)
    ensures m == n
  {
    forall f: string ensures f in m <==> f in n {
      assert Lookup(m, f) == Lookup(n, f);
    }
    forall f | f in m ensures m[f] == n[f] {
      assert Lookup(m, f) == Lookup(n, f);
    }
  }

  lemma WriteOfNothing(r: Row, op: Op)
    requires forall f :: f in op.writes ==> !Wins(r, op, f)
    ensures Write(r, op) == r
  {
    forall f ensures Lookup(Write(r, op).fields, f) == Lookup(r.fields, f)
             ensures Lookup(Write(r, op).clocks, f) == Lookup(r.clocks, f)
    {
      WriteAt(r, op, f);
    }
    SameMap(Write(r, op).fields, r.fields);
    SameMap(Write(r, op).clocks, r.clocks);
  }

  /** `h` is newer than every clock anywhere on the row. */
  predicate NewerThanRow(h: Clock, row: Row) {
    Newer(h, row.delHlc) && forall f :: f in row.clocks ==> Less(row.clocks[f], h)
  }

  function Tombstone(row: Row, h: Clock): Row {
    row.(deleted := true, delHlc := Some(h), fields := map[], clocks := map[])
  }

  function Apply(row: Option<Row>, op: Op): Applied {
    match op.kind
    case Delete =>
      if row.None? then Applied(Some(Tombstone(FreshRow(op.key), op.hlc)), true)
      else
        var r := row.value;
        var beats := if r.deleted then Newer(op.hlc, r.delHlc) else NewerThanRow(op.hlc, r);
        if beats then Applied(Some(Tombstone(r, op.hlc)), true) else Applied(row, false)
    case _ =>
      if row.None? then
        if op.kind.Update? then Applied(None, false)
        else Applied(Some(Write(FreshRow(op.key), op)), true)
      else
        var r := row.value;
        if r.deleted then
          if op.kind.Update? || !Newer(op.hlc, r.delHlc) then Applied(row, false)
          else Applied(Some(Write(r.(deleted := false, fields := map[], clocks := map[]), op)), true)
        else
          Applied(Some(Write(r, op)), exists f :: f in op.writes && Wins(r, op, f))
  }

  function Run(row: Option<Row>, ops: seq<Op>): Option<Row>
    decreases |ops|
  {
    if ops == [] then row else Run(Apply(row, ops[0]).row, ops[1..])
  }

  lemma {:induction false} RunConcat(row: Option<Row>, a: seq<Op>, b: seq<Op>)
    ensures Run(row, a + b) == Run(Run(row, a), b)
    decreases |a|
  {
    if a == [] {
      assert a + b == b;
    } else {
      assert (a + b)[0] == a[0] && (a + b)[1..] == a[1..] + b;
      RunConcat(Apply(row, a[0]).row, a[1..], b);
    }
  }

  lemma RunSnoc(row: Option<Row>, ops: seq<Op>)
    requires ops != []
    ensures Run(row, ops) == Apply(Run(row, ops[..|ops| - 1]), ops[|ops| - 1]).row
  {
    var a, b := ops[..|ops| - 1], [ops[|ops| - 1]];
    assert ops == a + b;
    RunConcat(row, a, b);
    assert Run(Run(row, a), b) == Run(Apply(Run(row, a), b[0]).row, []);
  }

  // ---------------------------------------------------------------------------
  // The loops of the implementation

  /** The clocks present on a row. */
  ghost function ClocksOf(row: Row): set<Clock> {
    row.clocks.Values + (if row.delHlc.Some? then {row.delHlc.value} else {})
  }

  ghost predicate IsMax(m: Option<Clock>, cs: set<Clock>) {
    if m.None? then cs == {}
    else m.value in cs && forall c :: c in cs ==> c == m.value || Less(c, m.value)
  }

  /** The newest clock anywhere on the row. */
  method MaxClock(row: Row) returns (m: Option<Clock>)
    ensures IsMax(m, ClocksOf(row))
  {
    m := row.delHlc;
    var todo := row.clocks.Keys;
    ghost var seen: set<Clock> := if m.Some? then {m.value} else {};
    while todo != {}
      invariant todo <= row.clocks.Keys
      invariant seen <= ClocksOf(row)
      invariant row.delHlc.Some? ==> row.delHlc.value in seen
      invariant forall f :: f in row.clocks && f !in todo ==> row.clocks[f] in seen
      invariant IsMax(m, seen)
      decreases |todo|
    {
      var f :| f in todo;
      var c := row.clocks[f];
      MaxOfOneMore(m, seen, c);
      if m.None? || Less(m.value, c) { m := Some(c); }
      todo := todo - {f};
      seen := seen + {c};
    }
    assert seen == ClocksOf(row);
  }

  lemma MaxOfOneMore(m: Option<Clock>, cs: set<Clock>, c: Clock)
    requires IsMax(m, cs)
    ensures IsMax(if m.None? || Less(m.value, c) then Some(c) else m, cs + {c})
  {
    if m.Some? {
      LessTotal(m.value, c);
      forall d | d in cs && Less(m.value, c) ensures Less(d, c) {
        if d != m.value { LessTransitive(d, m.value, c); }
      }
    }
  }

  /** Comparing with the newest clock is comparing with all of them. */
  lemma NewerThanMax(h: Clock, m: Option<Clock>, row: Row)
    requires IsMax(m, ClocksOf(row))
    ensures Newer(h, m) <==> NewerThanRow(h, row)
  {
    if m.Some? && Less(m.value, h) {
      forall c | c in ClocksOf(row) ensures Less(c, h) {
        if c != m.value { LessTransitive(c, m.value, h); }
      }
      forall f | f in row.clocks ensures Less(row.clocks[f], h) {
        assert row.clocks[f] in ClocksOf(row);
      }
      if row.delHlc.Some? { assert row.delHlc.value in ClocksOf(row); }
    }
    assert m.None? ==> row.clocks.Values == {};
    assert forall f :: f in row.clocks ==> row.clocks[f] in row.clocks.Values;
  }

  /** All writes but those of `todo` are in. */
  ghost predicate Written(start: Row, op: Op, todo: set<string>, base: Row) {
    && base == start.(fields := base.fields, clocks := base.clocks)
    && (forall g :: Lookup(base.fields, g) == if g in todo then Lookup(start.fields, g) else FieldAfter(start, op, g))
    && (forall g :: Lookup(base.clocks, g) == if g in todo then Lookup(start.clocks, g) else ClockAfter(start, op, g))
  }

  lemma WrittenAll(start: Row, op: Op, base: Row)
    requires Written(start, op, {}, base)
    ensures base == Write(start, op)
  {
    forall f ensures Lookup(base.fields, f) == Lookup(Write(start, op).fields, f)
             ensures Lookup(base.clocks, f) == Lookup(Write(start, op).clocks, f)
    {
      WriteAt(start, op, f);
    }
    SameMap(base.fields, Write(start, op).fields);
    SameMap(base.clocks, Write(start, op).clocks);
  }

  /** One field's write; the flag says whether it won. */
  method WriteField(base: Row, op: Op, f: string) returns (r: Row, won: bool)
    requires f in op.writes
    ensures won <==> Wins(base, op, f)
    ensures r == base.(fields := r.fields, clocks := r.clocks)
    ensures forall g :: Lookup(r.fields, g) == if g == f then FieldAfter(base, op, f) else Lookup(base.fields, g)
    ensures forall g :: Lookup(r.clocks, g) == if g == f then ClockAfter(base, op, f) else Lookup(base.clocks, g)
  {
    r, won := base, Newer(ClockFor(op, f), Lookup(base.clocks, f));
    if won {
      var fields := if op.writes[f].None? then base.fields - {f} else base.fields[f := op.writes[f].value];
      r := base.(fields := fields, clocks := base.clocks[f := ClockFor(op, f)]);
    }
  }

  /** The field writes of an op, one at a time on a copied row. */
  method WriteFields(start: Row, op: Op) returns (base: Row, changed: bool)
    ensures base == Write(start, op)
    ensures changed <==> exists f :: f in op.writes && Wins(start, op, f)
  {
    base := start;
    changed := false;
    var todo := op.writes.Keys;
    while todo != {}
      invariant todo <= op.writes.Keys && Written(start, op, todo, base)
      invariant changed <==> exists f :: f in op.writes && f !in todo && Wins(start, op, f)
      decreases |todo|
    {
      var f :| f in todo;
      assert Lookup(base.clocks, f) == Lookup(start.clocks, f) && Lookup(base.fields, f) == Lookup(start.fields, f);
      var won;
      base, won := WriteField(base, op, f);
      todo := todo - {f};
      changed := changed || won;
    }
    WrittenAll(start, op, base);
  }

  /** One op applied to a row. */
  method ApplyOp(row: Option<Row>, op: Op) returns (out: Option<Row>, changed: bool)
    ensures Applied(out, changed) == Apply(row, op)
  {
    if op.kind.Delete? {
      if row.None? {
        return Some(Row(op.key, 0, true, Some(op.hlc), map[], map[])), true;
      }
      var r := row.value;
      var beats;
      if r.deleted {
        beats := Newer(op.hlc, r.delHlc);
      } else {
        var m := MaxClock(r);
        NewerThanMax(op.hlc, m, r);
        beats := Newer(op.hlc, m);
      }
      if beats {
        return Some(r.(deleted := true, delHlc := Some(op.hlc), fields := map[], clocks := map[])), true;
      }
      return row, false;
    }
    var base;
    if row.None? {
      if op.kind.Update? { return None, false; }
      base := FreshRow(op.key);
    } else if row.value.deleted {
      if op.kind.Update? || !Newer(op.hlc, row.value.delHlc) { return row, false; }
      base := row.value.(deleted := false, fields := map[], clocks := map[]);
    } else {
      base := row.value;
    }
    var wrote;
    base, wrote := WriteFields(base, op);
    out, changed := Some(base), row.None? || row.value.deleted || wrote;
  }
}
