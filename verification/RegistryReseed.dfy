/**
 Recovery of a wiped server, end to end: a full hello answer from a server that lost its state makes
 the replica queue its rows as seeds, and pushing that queue rebuilds the rows.
 */
module RegistryReseed {
  import opened Wrappers
  import opened RegistryMerge
  import opened RegistryRoom
  import opened RegistryRecovery
  import opened RegistryReplica

  /** What a seed restores of a row: everything but the server seq, cleared-field clocks and, on a
      live row, the old tombstone clock. */
  function Restored(row: Row): Row {
    if row.deleted then row.(seqNo := 0)
    else Row(row.key, 0, false, None, row.fields, map f | f in row.clocks && f in row.fields :: row.clocks[f])
  }

  /** The queued seed of a row gives the row back where the server has none. */
  lemma ReseedRestores(bs: seq<Batch>, row: Row)
    requires WellFormed(row) && SeededOn(bs, row)
    ensures Run(None, QueuedOn(bs, row.key)) == Some(Restored(row))
  {
    var op :| IsSeedOf(op, row) && QueuedOn(bs, row.key) == [op];
    if row.deleted { TombstoneSeedRestores(row, op); } else { SeedRestores(row, op); }
    assert [op][1..] == [];
    assert Run(None, [op]) == Run(Apply(None, op).row, []);
  }

  function PushAll(s: Server, bs: seq<Batch>): Server
    decreases |bs|
  {
    if bs == [] then s else PushAll(Push(s, bs[0].ops), bs[1..])
  }

  lemma {:induction false} PushAllIsRun(s: Server, bs: seq<Batch>, k: Key)
    ensures SameRow(Get(PushAll(s, bs).rows, k), Run(Get(s.rows, k), QueuedOn(bs, k)))
    decreases |bs|
  {
    if bs != [] {
      var s', first, rest := Push(s, bs[0].ops), OpsOn(bs[0].ops, k), QueuedOn(bs[1..], k);
      PushIsRun(s, bs[0].ops, k);
      PushAllIsRun(s', bs[1..], k);
      RunIgnoresSeq(Get(s'.rows, k), Run(Get(s.rows, k), first), rest);
      RunConcat(Get(s.rows, k), first, rest);
    }
  }

  /** Pushed to an empty server, a queue of seeds rebuilds exactly the rows it was made from. */
  lemma WipedServerIsRefilled(auth: Table, bs: seq<Batch>, k: Key)
    requires Keyed(auth) && (forall x :: x in auth ==> WellFormed(auth[x]) && SeededOn(bs, auth[x]))
    requires forall x :: x !in auth ==> QueuedOn(bs, x) == []
    ensures var row := Get(PushAll(Server(map[], 0, 0), bs).rows, k);
            if k in auth then SameRow(row, Some(Restored(auth[k]))) else row == None
  {
    PushAllIsRun(Server(map[], 0, 0), bs, k);
    if k in auth { ReseedRestores(bs, auth[k]); }
  }

  /** Rows the server never saw come back as they were. */
  lemma MissingRowsAreSent(s: Server, bs: seq<Batch>, row: Row)
    requires WellFormed(row) && SeededOn(bs, row) && row.key !in s.rows
    ensures SameRow(Get(PushAll(s, bs).rows, row.key), Some(Restored(row)))
  {
    PushAllIsRun(s, bs, row.key);
    ReseedRestores(bs, row);
  }
}
