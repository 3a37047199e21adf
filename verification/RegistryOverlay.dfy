/**
 No flicker: while queued batches are pushed, broadcast back and acknowledged, the row a
 device shows does not change.
 */
module RegistryOverlay {
  import opened Wrappers
  import opened Hlc
  import opened RegistryMerge
  import opened RegistryReplay
  import opened RegistryRoom
  import opened RegistryReplica

  /** At most the first of the ops creates or revives the row. */
  predicate OnlyFirstRevives(row: Option<Row>, ops: seq<Op>) {
    ops == [] || NeverRevives(Apply(row, ops[0]).row, ops[1..])
  }

  lemma {:induction false} NeverRevivesParts(row: Option<Row>, a: seq<Op>, b: seq<Op>)
    requires NeverRevives(row, a + b)
    ensures NeverRevives(row, a) && NeverRevives(Run(row, a), b)
    decreases |a|
  {
    if a == [] {
      assert a + b == b;
    } else {
      assert (a + b)[0] == a[0] && (a + b)[1..] == a[1..] + b;
      NeverRevivesParts(Apply(row, a[0]).row, a[1..], b);
    }
  }

  lemma RestNeverRevives(row: Option<Row>, ops: seq<Op>, i: nat)
    requires i < |ops| && OnlyFirstRevives(row, ops)
    ensures NeverRevives(Apply(Run(row, ops[..i]), ops[i]).row, ops[i + 1..])
  {
    var first, pre, post := Apply(row, ops[0]).row, ops[..i + 1], ops[i + 1..];
    assert pre[0] == ops[0] && pre[1..] == ops[1..i + 1] && ops[1..] == ops[1..i + 1] + post;
    NeverRevivesParts(first, ops[1..i + 1], post);
    RunSnoc(row, pre);
    assert pre[..i] == ops[..i] && pre[i] == ops[i];
  }

  /** After the whole list ran, each of its ops is settled. */
  lemma RanOpsAreSettled(row: Option<Row>, ops: seq<Op>, i: nat)
    requires i < |ops| && Plain(ops[i]) && OnlyFirstRevives(row, ops)
    ensures Settled(Run(row, ops), ops[i])
  {
    var pre, post := ops[..i], ops[i + 1..];
    assert ops == pre + ([ops[i]] + post);
    RunConcat(row, pre, [ops[i]] + post);
    var at := Run(row, pre);
    var after := Apply(at, ops[i]).row;
    assert ([ops[i]] + post)[1..] == post;
    AppliedSettles(at, ops[i]);
    RestNeverRevives(row, ops, i);
    SettledSurvivesRun(after, ops[i], post);
  }

  /** In a run of plain ops that brings the row to life at most once, at the start, what ran is settled. */
  lemma RanPrefixIsSettled(row: Option<Row>, done: seq<Op>, post: seq<Op>, o: Op)
    requires o in done && Plain(o) && OnlyFirstRevives(row, done + post)
    ensures Settled(Run(row, done), o)
  {
    assert (done + post)[0] == done[0] && (done + post)[1..] == done[1..] + post;
    NeverRevivesParts(Apply(row, done[0]).row, done[1..], post);
    var i :| 0 <= i < |done| && done[i] == o;
    RanOpsAreSettled(row, done, i);
  }

  /** Replaying the settled suffix of a prefix that already ran adds nothing. */
  lemma ReplayedSuffixAbsorbed(row: Option<Row>, pre: seq<Op>, mid: seq<Op>, post: seq<Op>)
    requires forall o :: o in mid ==> Settled(Run(row, pre + mid), o)
    ensures Run(Run(row, pre + mid), mid + post) == Run(row, pre + mid + post)
  {
    var done := pre + mid;
    var x := Run(row, done);
    RunIsStillIffSettled(x, mid);
    RunConcat(x, mid, post);
    RunConcat(row, done, post);
  }

  // ---------------------------------------------------------------------------
  // Pushing the queue with no other writer

  /** The replica's rows after the broadcasts of those pushes. */
  function AuthAfter(auth: Table, s: Server, bs: seq<Batch>): Table
    decreases |bs|
  {
    if bs == [] then auth else AuthAfter(auth + TouchedBy(s, bs[0].ops), Push(s, bs[0].ops), bs[1..])
  }

  /** A replica that agrees with the server on a row keeps agreeing, and the row is the run of
      the pushed ops. */
  lemma {:induction false} PushedRow(auth: Table, s: Server, bs: seq<Batch>, k: Key)
    requires Get(auth, k) == Get(s.rows, k)
    ensures SameRow(Get(AuthAfter(auth, s, bs), k), Run(Get(auth, k), QueuedOn(bs, k)))
    decreases |bs|
  {
    if bs != [] {
      var t, s' := TouchedBy(s, bs[0].ops), Push(s, bs[0].ops);
      assert s'.rows == s.rows + t;
      assert Get(auth + t, k) == Get(s'.rows, k);
      PushedRow(auth + t, s', bs[1..], k);
      PushIsRun(s, bs[0].ops, k);
      var first, rest := OpsOn(bs[0].ops, k), QueuedOn(bs[1..], k);
      RunConcat(Get(auth, k), first, rest);
      RunIgnoresSeq(Get(auth + t, k), Run(Get(auth, k), first), rest);
    }
  }

  lemma {:induction false} QueuedOpsAreQueued(bs: seq<Batch>, k: Key, o: Op)
    requires o in QueuedOn(bs, k)
    ensures exists b :: b in bs && o in b.ops
  {
    if o in OpsOn(bs[0].ops, k) {
      OpsOnAreOps(bs[0].ops, k, o);
      assert bs[0] in bs;
    } else {
      QueuedOpsAreQueued(bs[1..], k, o);
      var b :| b in bs[1..] && o in b.ops;
      assert b in bs;
    }
  }

  lemma {:induction false} OpsOnAreOps(ops: seq<Op>, k: Key, o: Op)
    requires o in OpsOn(ops, k)
    ensures o in ops
  {
    if ops[0] != o { OpsOnAreOps(ops[1..], k, o); }
  }

  /** With no other writer: the server has merged and broadcast back `b` of the queued batches and
      acknowledged `a` of them. While the ops merged and not acknowledged are settled, the row shown
      is the one shown before the first push (up to the server seq). */
  lemma NoFlickerWhileSettled(auth: Table, s: Server, bs: seq<Batch>, k: Key, a: nat, b: nat)
    requires Get(auth, k) == Get(s.rows, k)
    requires a <= b <= |bs|
    requires forall o :: o in QueuedOn(bs[a..b], k) ==> Settled(Merged(auth, bs[..b], k), o)
    ensures SameRow(Overlay(AuthAfter(auth, s, bs[..b]), bs[a..], k), Overlay(auth, bs, k))
  {
    var row := Get(auth, k);
    var pre, mid, post := QueuedOn(bs[..a], k), QueuedOn(bs[a..b], k), QueuedOn(bs[b..], k);
    assert bs[..b] == bs[..a] + bs[a..b] && bs[a..] == bs[a..b] + bs[b..] && bs == bs[..b] + bs[b..];
    QueuedOnConcat(bs[..a], bs[a..b], k);
    QueuedOnConcat(bs[a..b], bs[b..], k);
    QueuedOnConcat(bs[..b], bs[b..], k);
    ReplayedSuffixAbsorbed(row, pre, mid, post);
    PushedRow(auth, s, bs[..b], k);
    RunIgnoresSeq(Get(AuthAfter(auth, s, bs[..b]), k), Run(row, pre + mid), mid + post);
  }

  /** So a queue of plain ops never flickers when only its first op on a row creates or revives it. */
  lemma NoFlicker(auth: Table, s: Server, bs: seq<Batch>, k: Key, a: nat, b: nat)
    requires Get(auth, k) == Get(s.rows, k)
    requires a <= b <= |bs|
    requires forall x, o :: x in bs && o in x.ops ==> Plain(o)
    requires OnlyFirstRevives(Get(auth, k), QueuedOn(bs, k))
    ensures SameRow(Overlay(AuthAfter(auth, s, bs[..b]), bs[a..], k), Overlay(auth, bs, k))
  {
    assert bs[..b] == bs[..a] + bs[a..b] && bs == bs[..b] + bs[b..];
    QueuedOnConcat(bs[..a], bs[a..b], k);
    QueuedOnConcat(bs[..b], bs[b..], k);
    forall o | o in QueuedOn(bs[a..b], k) ensures Settled(Merged(auth, bs[..b], k), o) {
      QueuedOpsAreQueued(bs[..b], k, o);
      RanPrefixIsSettled(Get(auth, k), QueuedOn(bs[..b], k), QueuedOn(bs[b..], k), o);
    }
    NoFlickerWhileSettled(auth, s, bs, k, a, b);
  }

  /** The row once the whole queue is merged. */
  function Merged(auth: Table, bs: seq<Batch>, k: Key): Option<Row> {
    Run(Get(auth, k), QueuedOn(bs, k))
  }

  /** The queue's tail `bs[a..]` adds nothing to the merged row. */
  predicate TailSettled(auth: Table, bs: seq<Batch>, k: Key, a: nat)
    requires a <= |bs|
  {
    forall o :: o in QueuedOn(bs[a..], k) ==> Settled(Merged(auth, bs, k), o)
  }

  lemma BeyondIsOtherRow(x: Option<Row>, y: Option<Row>)
    requires Beyond(x, y)
    ensures !SameRow(x, y)
  {
    BeyondDiffers(x, y);
  }

  lemma OverlayWhenMerged(auth: Table, s: Server, bs: seq<Batch>, k: Key, a: nat)
    requires Get(auth, k) == Get(s.rows, k) && a <= |bs|
    ensures SameRow(Overlay(AuthAfter(auth, s, bs), bs[a..], k),
                    var r := Run(Merged(auth, bs, k), QueuedOn(bs[a..], k)); if IsLive(r) then r else None)
  {
    PushedRow(auth, s, bs, k);
    RunIgnoresSeq(Get(AuthAfter(auth, s, bs), k), Merged(auth, bs, k), QueuedOn(bs[a..], k));
  }

  /** For a row the queue leaves live, and any ops: with the whole queue merged and the first `a`
      batches acknowledged, the row shown is the one shown before the push if and only if each op
      still queued is settled against that row. */
  lemma FlickersExactly(auth: Table, s: Server, bs: seq<Batch>, k: Key, a: nat)
    requires Get(auth, k) == Get(s.rows, k) && a <= |bs| && Overlay(auth, bs, k).Some?
    ensures SameRow(Overlay(AuthAfter(auth, s, bs), bs[a..], k), Overlay(auth, bs, k)) <==> TailSettled(auth, bs, k, a)
  {
    var x, ops := Merged(auth, bs, k), QueuedOn(bs[a..], k);
    OverlayWhenMerged(auth, s, bs, k, a);
    RunMovesOn(x, ops);
    if !TailSettled(auth, bs, k, a) { BeyondIsOtherRow(x, Run(x, ops)); }
  }

  lemma {:induction false} TailIsQueued(bs: seq<Batch>, k: Key, a: nat, o: Op)
    requires a <= |bs| && o in QueuedOn(bs[a..], k)
    ensures o in QueuedOn(bs, k)
  {
    assert bs == bs[..a] + bs[a..];
    QueuedOnConcat(bs[..a], bs[a..], k);
  }

  /** A row that a queue of plain ops leaves deleted or absent never reappears. */
  lemma DeletedNeverFlickers(auth: Table, s: Server, bs: seq<Batch>, k: Key, a: nat)
    requires Get(auth, k) == Get(s.rows, k) && a <= |bs| && Overlay(auth, bs, k).None?
    requires forall o :: o in QueuedOn(bs, k) ==> Plain(o)
    ensures TailSettled(auth, bs, k, a) && Overlay(AuthAfter(auth, s, bs), bs[a..], k).None?
  {
    var x, ops := Merged(auth, bs, k), QueuedOn(bs[a..], k);
    forall o | o in ops ensures Settled(x, o) {
      TailIsQueued(bs, k, a, o);
      DeadRunSettles(Get(auth, k), QueuedOn(bs, k), o);
    }
    OverlayWhenMerged(auth, s, bs, k, a);
    RunMovesOn(x, ops);
  }

  /** Re-creating a row in the queue after a delete can flicker: with all three batches merged and
      none acknowledged, the replayed first update writes a field the revived row no longer has. */
  lemma RecreationFlickers(key: Key)
    ensures var row := Some(Row(key, 1, false, None, map["title" := "a"], map["title" := "1"]));
            var ops := [Op(key, Update, map["title" := Some("b")], "2", map[]),
                        Op(key, Delete, map[], "3", map[]),
                        Op(key, Upsert, map["name" := Some("c")], "4", map[])];
            Run(Run(row, ops), ops) != Run(row, ops)
  {
    var row := Some(Row(key, 1, false, None, map["title" := "a"], map["title" := "1"]));
    var up := Op(key, Update, map["title" := Some("b")], "2", map[]);
    var del := Op(key, Delete, map[], "3", map[]);
    var re := Op(key, Upsert, map["name" := Some("c")], "4", map[]);
    assert Less("1", "2") && Less("2", "3") && Less("3", "4") && !Less("4", "3");
    var r1 := Apply(row, up).row.value;
    WriteAt(row.value, up, "title");
    assert forall f :: f in r1.clocks ==> f == "title";
    assert r1.clocks["title"] == "2";
    var r2 := Apply(Some(r1), del).row.value;
    assert r2 == Tombstone(r1, "3");
    var base := r2.(deleted := false);
    var r3 := Apply(Some(r2), re).row.value;
    assert r3 == Write(base, re);
    WriteAt(base, re, "title");
    WriteAt(base, re, "name");
    RunThree(row, up, del, re);
    assert Run(row, [up, del, re]) == Some(r3) && Lookup(r3.fields, "title") == None;
    assert !Settled(Some(r3), up) && up in [up, del, re];
    RunIsStillIffSettled(Some(r3), [up, del, re]);
  }

  lemma RunThree(row: Option<Row>, a: Op, b: Op, c: Op)
    ensures Run(row, [a, b, c]) == Apply(Apply(Apply(row, a).row, b).row, c).row
  {
    assert [a, b, c][1..] == [b, c] && [b, c][1..] == [c] && [c][1..] == [];
    var r := Apply(row, a).row;
    var r' := Apply(r, b).row;
    assert Run(r, [b, c]) == Run(r', [c]) == Run(Apply(r', c).row, []);
  }
}
