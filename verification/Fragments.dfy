/**
 Moving updates over a socket with a bounded frame: small updates travel several to a frame,
 larger ones are cut into fragments that the other end puts together again.
 */
module Fragments {
  import opened Wrappers
  import opened Utf8

  const FRAGMENT_BYTES := 200_000
  const MAX_REASSEMBLED_BYTES := 32 * 1024 * 1024
  const MAX_FRAGMENT_COUNT := 4096
  const PENALTY_PROBE_MAX_BYTES := 4096

  /** The random batch identifiers, as the order in which they were minted. */
  type BatchId = nat

  datatype Message =
    | DocUpdate(batchId: BatchId, updates: seq<Bytes>)
    | FragmentHeader(batchId: BatchId, count: nat, total: nat)
    | Fragment(batchId: BatchId, index: nat, bytes: Bytes)

  // ---------------------------------------------------------------------------
  // Sending: small updates

  predicate Small(u: Bytes) {
    |u| <= FRAGMENT_BYTES
  }

  function SmallOnes(us: seq<Bytes>): seq<Bytes> {
    if us == [] then [] else (if Small(us[0]) then [us[0]] else []) + SmallOnes(us[1..])
  }

  function LargeOnes(us: seq<Bytes>): seq<Bytes> {
    if us == [] then [] else (if Small(us[0]) then [] else [us[0]]) + LargeOnes(us[1..])
  }

  function Flush(batch: seq<Bytes>): seq<seq<Bytes>> {
    if batch == [] then [] else [batch]
  }

  /** Batches filled in order, a new one begun whenever the next update would not fit. */
  function Pack(us: seq<Bytes>, batch: seq<Bytes>): seq<seq<Bytes>>
    decreases |us|
  {
    if us == [] then Flush(batch)
    else if !Small(us[0]) then Pack(us[1..], batch)
    else if |Concat(batch)| + |us[0]| > FRAGMENT_BYTES then Flush(batch) + Pack(us[1..], [us[0]])
    else Pack(us[1..], batch + [us[0]])
  }

  function Flatten(bs: seq<seq<Bytes>>): seq<Bytes> {
    if bs == [] then [] else bs[0] + Flatten(bs[1..])
  }

  lemma ConcatSnoc(batch: seq<Bytes>, u: Bytes)
    ensures |Concat(batch + [u])| == |Concat(batch)| + |u|
  {
    ConcatParts(batch, [u]);
    assert Concat([u]) == u + Concat([u][1..]);
  }

  lemma {:induction false} PackFits(us: seq<Bytes>, batch: seq<Bytes>, b: seq<Bytes>)
    requires |Concat(batch)| <= FRAGMENT_BYTES && b in Pack(us, batch)
    ensures b != [] && |Concat(b)| <= FRAGMENT_BYTES
    decreases |us|
  {
    if us != [] {
      ConcatSnoc([], us[0]);
      assert [] + [us[0]] == [us[0]];
      ConcatSnoc(batch, us[0]);
      if !Small(us[0]) {
        PackFits(us[1..], batch, b);
      } else if |Concat(batch)| + |us[0]| > FRAGMENT_BYTES {
        if b !in Flush(batch) { PackFits(us[1..], [us[0]], b); }
      } else {
        PackFits(us[1..], batch + [us[0]], b);
      }
    }
  }

  /** Each batch but the first begins with an update that did not fit the one before. */
  ghost predicate Greedy(bs: seq<seq<Bytes>>) {
    |bs| <= 1 || (bs[1] != [] && |Concat(bs[0])| + |bs[1][0]| > FRAGMENT_BYTES && Greedy(bs[1..]))
  }

  /** Batches are filled before the next one is begun. */
  lemma {:induction false} PackIsGreedy(us: seq<Bytes>, batch: seq<Bytes>)
    ensures Greedy(Pack(us, batch))
    ensures batch != [] ==> Pack(us, batch) != [] && Pack(us, batch)[0] != [] && Pack(us, batch)[0][0] == batch[0]
    decreases |us|
  {
    if us != [] {
      if !Small(us[0]) {
        PackIsGreedy(us[1..], batch);
      } else if |Concat(batch)| + |us[0]| > FRAGMENT_BYTES {
        PackIsGreedy(us[1..], [us[0]]);
        var rest := Pack(us[1..], [us[0]]);
        assert batch != [];
        assert Pack(us, batch) == [batch] + rest && ([batch] + rest)[1..] == rest;
      } else {
        PackIsGreedy(us[1..], batch + [us[0]]);
      }
    }
  }

  lemma {:induction false} PackKeepsOrder(us: seq<Bytes>, batch: seq<Bytes>)
    ensures Flatten(Pack(us, batch)) == batch + SmallOnes(us)
    decreases |us|
  {
    if us == [] {
      FlushFirst(batch, []);
      assert Flush(batch) + [] == Flush(batch);
    } else {
      var u, rest := us[0], SmallOnes(us[1..]);
      if !Small(u) {
        assert SmallOnes(us) == [] + rest == rest;
        PackKeepsOrder(us[1..], batch);
      } else {
        assert SmallOnes(us) == [u] + rest;
        if |Concat(batch)| + |u| > FRAGMENT_BYTES {
          PackKeepsOrder(us[1..], [u]);
          FlushFirst(batch, Pack(us[1..], [u]));
        } else {
          PackKeepsOrder(us[1..], batch + [u]);
          assert batch + [u] + rest == batch + ([u] + rest);
        }
      }
    }
  }

  lemma FlushFirst(batch: seq<Bytes>, rest: seq<seq<Bytes>>)
    ensures Flatten(Flush(batch) + rest) == batch + Flatten(rest)
  {
    if batch == [] {
      assert Flush(batch) + rest == rest;
    } else {
      assert ([batch] + rest)[1..] == rest;
    }
  }

  // ---------------------------------------------------------------------------
  // Sending: large updates

  function Count(u: Bytes): nat {
    (|u| + FRAGMENT_BYTES - 1) / FRAGMENT_BYTES
  }

  function Start(u: Bytes, i: nat): (s: nat)
    ensures s <= |u|
  {
    if i * FRAGMENT_BYTES < |u| then i * FRAGMENT_BYTES else |u|
  }

  function Piece(u: Bytes, i: nat): (p: Bytes)
    ensures |p| <= FRAGMENT_BYTES
  {
    u[Start(u, i)..Start(u, i + 1)]
  }

  /** The fragments from index `i` on. */
  function FragmentsFrom(u: Bytes, id: BatchId, i: nat): seq<Message> {
    seq(if i < Count(u) then Count(u) - i else 0, k requires 0 <= k => Fragment(id, i + k, Piece(u, i + k)))
  }

  /** Only the last fragment is short. */
  lemma FragmentsAreFull(u: Bytes, i: nat)
    requires i < Count(u)
    ensures i + 1 < Count(u) ==> |Piece(u, i)| == FRAGMENT_BYTES
    ensures |Piece(u, i)| > 0
  {}

  function Cut(u: Bytes, id: BatchId): seq<Message> {
    [FragmentHeader(id, Count(u), |u|)] + FragmentsFrom(u, id, 0)
  }

  function BatchMessages(bs: seq<seq<Bytes>>, first: BatchId): seq<Message> {
    if bs == [] then [] else [DocUpdate(first, bs[0])] + BatchMessages(bs[1..], first + 1)
  }

  function LargeMessages(us: seq<Bytes>, first: BatchId): seq<Message> {
    if us == [] then [] else Cut(us[0], first) + LargeMessages(us[1..], first + 1)
  }

  /** Everything one call sends: the batches, then the fragmented updates, each under its own id. */
  function Sent(us: seq<Bytes>, first: BatchId): seq<Message> {
    var bs := Pack(us, []);
    BatchMessages(bs, first) + LargeMessages(LargeOnes(us), first + |bs|)
  }

  /** What a frame carries. */
  function Carried(m: Message): nat {
    match m
    case DocUpdate(_, us) => |Concat(us)|
    case FragmentHeader(_, _, _) => 0
    case Fragment(_, _, bytes) => |bytes|
  }

  lemma {:induction false} BatchMessagesAre(bs: seq<seq<Bytes>>, first: BatchId, m: Message)
    requires m in BatchMessages(bs, first)
    ensures m.DocUpdate? && m.updates in bs
  {
    if m != DocUpdate(first, bs[0]) { BatchMessagesAre(bs[1..], first + 1, m); }
  }

  lemma {:induction false} LargeMessagesFit(us: seq<Bytes>, first: BatchId, m: Message)
    requires m in LargeMessages(us, first)
    ensures Carried(m) <= FRAGMENT_BYTES
    decreases |us|
  {
    if m in Cut(us[0], first) {
      assert m.FragmentHeader? || m in FragmentsFrom(us[0], first, 0);
    } else {
      LargeMessagesFit(us[1..], first + 1, m);
    }
  }

  /** No frame carries more than the fragment size. */
  lemma FramesFit(us: seq<Bytes>, first: BatchId, m: Message)
    requires m in Sent(us, first)
    ensures Carried(m) <= FRAGMENT_BYTES
  {
    var bs := Pack(us, []);
    if m in BatchMessages(bs, first) {
      BatchMessagesAre(bs, first, m);
      PackFits(us, [], m.updates);
    } else {
      LargeMessagesFit(LargeOnes(us), first + |bs|, m);
    }
  }

  /** The updates that messages carry whole, in order. */
  function WholeUpdates(ms: seq<Message>): seq<Bytes> {
    if ms == [] then [] else (if ms[0].DocUpdate? then ms[0].updates else []) + WholeUpdates(ms[1..])
  }

  /** The ids under which messages begin a batch, in order. */
  function OpenedIds(ms: seq<Message>): seq<BatchId> {
    if ms == [] then [] else (if ms[0].Fragment? then [] else [ms[0].batchId]) + OpenedIds(ms[1..])
  }

  lemma {:induction false} WholeConcat(a: seq<Message>, b: seq<Message>)
    ensures WholeUpdates(a + b) == WholeUpdates(a) + WholeUpdates(b) && OpenedIds(a + b) == OpenedIds(a) + OpenedIds(b)
  {
    if a == [] {
      assert a + b == b;
    } else {
      assert (a + b)[0] == a[0] && (a + b)[1..] == a[1..] + b;
      WholeConcat(a[1..], b);
    }
  }

  /** `n` ids in a row. */
  function Ids(first: BatchId, n: nat): seq<BatchId> {
    seq(n, i requires 0 <= i => first + i)
  }

  lemma IdsCons(first: BatchId, n: nat)
    requires n > 0
    ensures Ids(first, n) == [first] + Ids(first + 1, n - 1)
  {}

  lemma {:induction false} BatchMessagesCarry(bs: seq<seq<Bytes>>, first: BatchId)
    ensures WholeUpdates(BatchMessages(bs, first)) == Flatten(bs)
    ensures OpenedIds(BatchMessages(bs, first)) == Ids(first, |bs|)
    decreases |bs|
  {
    if bs != [] {
      var rest := BatchMessages(bs[1..], first + 1);
      BatchMessagesCarry(bs[1..], first + 1);
      assert ([DocUpdate(first, bs[0])] + rest)[1..] == rest;
      IdsCons(first, |bs|);
    }
  }

  lemma {:induction false} OnlyFragments(ms: seq<Message>)
    requires forall m :: m in ms ==> m.Fragment?
    ensures WholeUpdates(ms) == [] && OpenedIds(ms) == []
  {
    if ms != [] {
      assert ms[0] in ms;
      OnlyFragments(ms[1..]);
    }
  }

  lemma CutCarries(u: Bytes, id: BatchId)
    ensures WholeUpdates(Cut(u, id)) == [] && OpenedIds(Cut(u, id)) == [id]
  {
    OnlyFragments(FragmentsFrom(u, id, 0));
    assert Cut(u, id)[1..] == FragmentsFrom(u, id, 0);
  }

  lemma {:induction false} LargeMessagesCarry(us: seq<Bytes>, first: BatchId)
    ensures WholeUpdates(LargeMessages(us, first)) == []
    ensures OpenedIds(LargeMessages(us, first)) == Ids(first, |us|)
    decreases |us|
  {
    if us != [] {
      LargeMessagesCarry(us[1..], first + 1);
      CutCarries(us[0], first);
      WholeConcat(Cut(us[0], first), LargeMessages(us[1..], first + 1));
      IdsCons(first, |us|);
    }
  }

  lemma IdsConcat(first: BatchId, m: nat, n: nat)
    ensures Ids(first, m) + Ids(first + m, n) == Ids(first, m + n)
  {}

  /** What one call sends: every update within the fragment size, whole, once and in order, and every
      batch under an id of its own. */
  lemma SentCarriesSmall(us: seq<Bytes>, first: BatchId)
    ensures WholeUpdates(Sent(us, first)) == SmallOnes(us)
    ensures OpenedIds(Sent(us, first)) == Ids(first, |Pack(us, [])| + |LargeOnes(us)|)
  {
    var bs, large := Pack(us, []), LargeOnes(us);
    BatchMessagesCarry(bs, first);
    LargeMessagesCarry(large, first + |bs|);
    WholeConcat(BatchMessages(bs, first), LargeMessages(large, first + |bs|));
    PackKeepsOrder(us, []);
    IdsConcat(first, |bs|, |large|);
  }

  /** No update is left out. */
  lemma {:induction false} EveryUpdateIsSent(us: seq<Bytes>, u: Bytes)
    ensures u in us && Small(u) <==> u in SmallOnes(us)
    ensures u in us && !Small(u) <==> u in LargeOnes(us)
  {
    if us != [] { EveryUpdateIsSent(us[1..], u); }
  }

  method SendUpdates(us: seq<Bytes>, first: BatchId) returns (sent: seq<Message>)
    ensures sent == Sent(us, first)
  {
    var batches := PackUpdates(us);
    sent := [];
    var id := first;
    for i := 0 to |batches|
      invariant id == first + i
      invariant sent + BatchMessages(batches[i..], id) == BatchMessages(batches, first)
    {
      sent := sent + [DocUpdate(id, batches[i])];
      id := id + 1;
    }
    var large := SendLarge(us, id);
    sent := sent + large;
  }

  method SendLarge(us: seq<Bytes>, first: BatchId) returns (sent: seq<Message>)
    ensures sent == LargeMessages(LargeOnes(us), first)
  {
    sent := [];
    var id := first;
    for i := 0 to |us|
      invariant sent + LargeMessages(LargeOnes(us[i..]), id) == LargeMessages(LargeOnes(us), first)
    {
      LargeNext(us[i..], id);
      assert us[i..][1..] == us[i + 1..];
      if |us[i]| > FRAGMENT_BYTES {
        var fragments := SendFragments(us[i], id);
        var cut := [FragmentHeader(id, Count(us[i]), |us[i]|)] + fragments;
        AppendCut(sent, cut, LargeMessages(LargeOnes(us[i + 1..]), id + 1));
        sent := sent + cut;
        id := id + 1;
      }
    }
  }

  lemma AppendCut(sent: seq<Message>, cut: seq<Message>, rest: seq<Message>)
    ensures sent + (cut + rest) == sent + cut + rest
  {}

  lemma LargeNext(us: seq<Bytes>, id: BatchId)
    requires us != []
    ensures LargeMessages(LargeOnes(us), id)
         == if Small(us[0]) then LargeMessages(LargeOnes(us[1..]), id)
            else Cut(us[0], id) + LargeMessages(LargeOnes(us[1..]), id + 1)
  {
    var rest := LargeOnes(us[1..]);
    if Small(us[0]) {
      assert [] + rest == rest;
    } else {
      assert ([us[0]] + rest)[1..] == rest;
    }
  }

  method PackUpdates(us: seq<Bytes>) returns (batches: seq<seq<Bytes>>)
    ensures batches == Pack(us, [])
  {
    batches := [];
    var batch: seq<Bytes> := [];
    var batchBytes := 0;
    for i := 0 to |us|
      invariant batchBytes == |Concat(batch)|
      invariant batches + Pack(us[i..], batch) == Pack(us, [])
    {
      var u := us[i];
      if |u| <= FRAGMENT_BYTES {
        if batchBytes + |u| > FRAGMENT_BYTES {
          batches, batch, batchBytes := batches + Flush(batch), [], 0;
        }
        ConcatSnoc(batch, u);
        assert batch == [] ==> batch + [u] == [u];
        batch, batchBytes := batch + [u], batchBytes + |u|;
      }
    }
    batches := batches + Flush(batch);
  }

  method SendFragments(u: Bytes, id: BatchId) returns (sent: seq<Message>)
    ensures sent == FragmentsFrom(u, id, 0)
  {
    sent := [];
    for i := 0 to Count(u)
      invariant sent + FragmentsFrom(u, id, i) == FragmentsFrom(u, id, 0)
    {
      sent := sent + [Fragment(id, i, Piece(u, i))];
    }
  }

  // ---------------------------------------------------------------------------
  // Receiving

  /** A hole stands for a part that a fragment beyond the announced count leaves unset. */
  datatype Batch = Batch(parts: seq<Option<Bytes>>, received: nat, total: nat)

  type Batches = map<BatchId, Batch>

  datatype Reply =
    | Silent | PermissionDenied | PayloadTooLarge | InvalidUpdate | FragmentTimeout
    | Apply(update: Bytes)
    | Failed

  /** A message with what the room knows of its sender at that moment. */
  datatype Event = Event(message: Message, joined: bool, penalized: bool)

  function Put(b: Batch, index: nat, bytes: Bytes): Batch {
    var parts := if index < |b.parts| then b.parts[index := Some(bytes)]
                 else b.parts + seq(index - |b.parts|, _ => None) + [Some(bytes)];
    Batch(parts, b.received + 1, b.total)
  }

  function Joined(parts: seq<Option<Bytes>>): Option<Bytes> {
    if parts == [] then Some([])
    else if parts[0].None? then None
    else Prepend(parts[0].value, Joined(parts[1..]))
  }

  /** The parts are copied into a zeroed buffer of the announced size. */
  function Assemble(b: Batch): Reply {
    var all := Joined(b.parts);
    if all.None? || |all.value| > b.total then Failed
    else Apply(all.value + seq(b.total - |all.value|, _ => 0))
  }

  function ReceiveHeader(bs: Batches, id: BatchId, count: nat, total: nat, joined: bool, penalized: bool): (Batches, Reply) {
    if !joined then (bs, PermissionDenied)
    else if total > MAX_REASSEMBLED_BYTES || count > MAX_FRAGMENT_COUNT then (bs, PayloadTooLarge)
    else if total > PENALTY_PROBE_MAX_BYTES && penalized then (bs, InvalidUpdate)
    else (bs[id := Batch(seq(count, _ => Some([])), 0, total)], Silent)
  }

  function ReceiveFragment(bs: Batches, id: BatchId, index: nat, bytes: Bytes, penalized: bool): (Batches, Reply) {
    if id !in bs then (bs, if penalized then Silent else FragmentTimeout)
    else
      var b := Put(bs[id], index, bytes);
      if b.received < |b.parts| then (bs[id := b], Silent) else (bs - {id}, Assemble(b))
  }

  /** Whole updates do not touch the fragments. */
  function Receive(bs: Batches, e: Event): (Batches, Reply) {
    match e.message
    case DocUpdate(_, _) => (bs, Silent)
    case FragmentHeader(id, count, total) => ReceiveHeader(bs, id, count, total, e.joined, e.penalized)
    case Fragment(id, index, bytes) => ReceiveFragment(bs, id, index, bytes, e.penalized)
  }

  /** A header opens a batch exactly when its sender has joined, it is within both limits, and its
      sender is not penalized or it is small; otherwise it leaves no trace. */
  lemma HeaderOpens(bs: Batches, id: BatchId, count: nat, total: nat, joined: bool, penalized: bool)
    requires id !in bs
    ensures var (bs', reply) := Receive(bs, Event(FragmentHeader(id, count, total), joined, penalized));
            && (id in bs' <==> joined && total <= MAX_REASSEMBLED_BYTES && count <= MAX_FRAGMENT_COUNT
                               && (total <= PENALTY_PROBE_MAX_BYTES || !penalized))
            && (id in bs' ==> reply == Silent && bs'[id].total == total && |bs'[id].parts| == count && bs'[id].received == 0)
            && (id !in bs' ==> reply != Silent && bs' == bs)
  {}

  class Reassembler {
    var fragments: Batches

    constructor ()
      ensures fragments == map[]
    {
      fragments := map[];
    }

    method HandleFragmentHeader(id: BatchId, count: nat, total: nat, joined: bool, penalized: bool) returns (reply: Reply)
      modifies this
      ensures (fragments, reply) == Receive(old(fragments), Event(FragmentHeader(id, count, total), joined, penalized))
    {
      if !joined { return PermissionDenied; }
      if total > MAX_REASSEMBLED_BYTES || count > MAX_FRAGMENT_COUNT { return PayloadTooLarge; }
      if total > PENALTY_PROBE_MAX_BYTES && penalized { return InvalidUpdate; }
      fragments := fragments[id := Batch(seq(count, _ => Some([])), 0, total)];
      reply := Silent;
    }

    method HandleFragment(id: BatchId, index: nat, fragment: Bytes, joined: bool, penalized: bool) returns (reply: Reply)
      modifies this
      ensures (fragments, reply) == Receive(old(fragments), Event(Fragment(id, index, fragment), joined, penalized))
    {
      if id !in fragments {
        return if penalized then Silent else FragmentTimeout;
      }
      var batch := Put(fragments[id], index, fragment);
      if batch.received < |batch.parts| {
        fragments := fragments[id := batch];
        return Silent;
      }
      fragments := fragments - {id};
      var total := JoinParts(batch.parts);
      reply := if total.None? || |total.value| > batch.total then Failed
               else Apply(total.value + seq(batch.total - |total.value|, _ => 0));
    }
  }

  function Prepend(front: Bytes, rest: Option<Bytes>): Option<Bytes> {
    if rest.None? then None else Some(front + rest.value)
  }

  lemma PrependTwice(a: Bytes, b: Bytes, rest: Option<Bytes>)
    ensures Prepend(a, Prepend(b, rest)) == Prepend(a + b, rest)
  {
    if rest.Some? { assert a + (b + rest.value) == a + b + rest.value; }
  }

  lemma PrependNothing(rest: Option<Bytes>, all: Bytes)
    ensures Prepend([], rest) == rest && Prepend(all, Some([])) == Some(all)
  {
    assert all + [] == all;
    if rest.Some? { assert [] + rest.value == rest.value; }
  }

  method JoinParts(parts: seq<Option<Bytes>>) returns (all: Option<Bytes>)
    ensures all == Joined(parts)
  {
    var out: Bytes := [];
    assert parts[0..] == parts;
    PrependNothing(Joined(parts), out);
    for i := 0 to |parts|
      invariant Joined(parts) == Prepend(out, Joined(parts[i..]))
    {
      assert parts[i..][1..] == parts[i + 1..];
      if parts[i].None? { return None; }
      PrependTwice(out, parts[i].value, Joined(parts[i + 1..]));
      out := out + parts[i].value;
    }
    assert parts[|parts|..] == [];
    PrependNothing(None, out);
    all := Some(out);
  }

  // ---------------------------------------------------------------------------
  // Runs

  /** The updates applied under one batch id over a run. */
  function Applied(bs: Batches, es: seq<Event>, id: BatchId): seq<Bytes>
    decreases |es|
  {
    if es == [] then []
    else
      var (bs', reply) := Receive(bs, es[0]);
      (if es[0].message.batchId == id && reply.Apply? then [reply.update] else []) + Applied(bs', es[1..], id)
  }

  function Only(es: seq<Event>, id: BatchId): seq<Event> {
    if es == [] then [] else (if es[0].message.batchId == id then [es[0]] else []) + Only(es[1..], id)
  }

  function Lookup(bs: Batches, id: BatchId): Option<Batch> {
    if id in bs then Some(bs[id]) else None
  }

  lemma ReceiveIsLocal(bs: Batches, cs: Batches, e: Event, id: BatchId)
    requires Lookup(bs, id) == Lookup(cs, id)
    ensures e.message.batchId != id ==> Lookup(Receive(bs, e).0, id) == Lookup(bs, id)
    ensures e.message.batchId == id ==>
              Lookup(Receive(bs, e).0, id) == Lookup(Receive(cs, e).0, id) && Receive(bs, e).1 == Receive(cs, e).1
  {}

  /** Batches in flight together do not disturb each other, however they interleave. */
  lemma {:induction false} InterleavingIsHarmless(bs: Batches, cs: Batches, es: seq<Event>, id: BatchId)
    requires Lookup(bs, id) == Lookup(cs, id)
    ensures Applied(bs, es, id) == Applied(cs, Only(es, id), id)
    decreases |es|
  {
    if es != [] {
      var e, rest := es[0], Only(es[1..], id);
      ReceiveIsLocal(bs, cs, e, id);
      if e.message.batchId == id {
        assert Only(es, id)[0] == e && Only(es, id)[1..] == rest;
        InterleavingIsHarmless(Receive(bs, e).0, Receive(cs, e).0, es[1..], id);
      } else {
        assert Only(es, id) == [] + rest == rest;
        InterleavingIsHarmless(Receive(bs, e).0, cs, es[1..], id);
      }
    }
  }

  // ---------------------------------------------------------------------------
  // Reassembly

  /** Indices of the fragments of `u`. */
  ghost predicate Indices(order: seq<nat>, u: Bytes) {
    forall k :: 0 <= k < |order| ==> order[k] < Count(u)
  }

  /** Every index below `n` occurs. */
  ghost predicate AllOccur(order: seq<nat>, n: nat) {
    forall i: nat :: i < n ==> i in order
  }

  /** Each of `0..n` exactly once. */
  ghost predicate Permutation(order: seq<nat>, n: nat) {
    && |order| == n
    && (forall k :: 0 <= k < n ==> order[k] < n)
    && AllOccur(order, n)
  }

  /** The fragments of `u`, in the given order. */
  ghost predicate Carries(es: seq<Event>, u: Bytes, id: BatchId, order: seq<nat>) {
    |es| == |order| && forall k :: 0 <= k < |es| ==> es[k].message == Fragment(id, order[k], Piece(u, order[k]))
  }

  /** The parts of a batch that got these fragments: the others are still empty. */
  function PartsOf(u: Bytes, order: seq<nat>): seq<Option<Bytes>> {
    seq(Count(u), i => Some(if i in order then Piece(u, i) else []))
  }

  /** The parts that came, in their places, and zeros for what is missing. */
  function Delivered(u: Bytes, order: seq<nat>): Bytes {
    var all := Joined(PartsOf(u, order));
    if all.Some? && |all.value| <= |u| then all.value + seq(|u| - |all.value|, _ => 0) else []
  }

  lemma {:induction false} PiecesJoin(u: Bytes, parts: seq<Option<Bytes>>, i: nat)
    requires |parts| == Count(u) && i <= Count(u)
    requires forall k :: 0 <= k < |parts| ==> parts[k] == Some(Piece(u, k))
    ensures Joined(parts[i..]) == Some(u[Start(u, i)..])
    decreases Count(u) - i
  {
    if i == Count(u) {
      assert u[Start(u, i)..] == [];
    } else {
      PiecesJoin(u, parts, i + 1);
      assert parts[i..][1..] == parts[i + 1..];
      assert u[Start(u, i)..] == Piece(u, i) + u[Start(u, i + 1)..];
    }
  }

  /** What is joined is never longer than the update, and shorter when a fragment is missing. */
  lemma {:induction false} JoinedLength(u: Bytes, order: seq<nat>, i: nat)
    requires i <= Count(u)
    ensures var all := Joined(PartsOf(u, order)[i..]);
            && all.Some? && |all.value| <= |u| - Start(u, i)
            && ((exists k: nat :: i <= k < Count(u) && k !in order) ==> |all.value| < |u| - Start(u, i))
    decreases Count(u) - i
  {
    if i < Count(u) {
      var parts := PartsOf(u, order);
      JoinedLength(u, order, i + 1);
      assert parts[i..][0] == parts[i] && parts[i..][1..] == parts[i + 1..];
      assert |Piece(u, i)| == Start(u, i + 1) - Start(u, i) > 0;
    }
  }

  lemma DeliveredWhole(u: Bytes, order: seq<nat>)
    requires AllOccur(order, Count(u))
    ensures Delivered(u, order) == u
  {
    var parts := PartsOf(u, order);
    PiecesJoin(u, parts, 0);
    assert parts[0..] == parts && u[Start(u, 0)..] == u;
  }

  /** With a fragment missing, the last byte is a zero of the buffer. */
  lemma DeliveredShort(u: Bytes, order: seq<nat>)
    requires u != [] && !AllOccur(order, Count(u))
    ensures |Delivered(u, order)| == |u| && Delivered(u, order)[|u| - 1] == 0
  {
    var k: nat :| k < Count(u) && k !in order;
    JoinedLength(u, order, 0);
    assert PartsOf(u, order)[0..] == PartsOf(u, order);
  }

  /** The batch after the first `k` fragments of an order. */
  ghost predicate Gathered(b: Batch, u: Bytes, order: seq<nat>, k: nat) {
    k <= |order| && b == Batch(PartsOf(u, order[..k]), k, |u|)
  }

  lemma PutGathers(b: Batch, u: Bytes, order: seq<nat>, k: nat)
    requires Indices(order, u) && Gathered(b, u, order, k) && k < |order|
    ensures Gathered(Put(b, order[k], Piece(u, order[k])), u, order, k + 1)
  {
    assert order[..k + 1] == order[..k] + [order[k]];
    assert PartsOf(u, order[..k + 1]) == PartsOf(u, order[..k])[order[k] := Some(Piece(u, order[k]))];
  }

  lemma CompleteAssembles(b: Batch, u: Bytes, order: seq<nat>, k: nat)
    requires Gathered(b, u, order, k)
    ensures Assemble(b) == Apply(Delivered(u, order[..k]))
  {
    JoinedLength(u, order[..k], 0);
    assert PartsOf(u, order[..k])[0..] == PartsOf(u, order[..k]);
  }

  /** The first `Count(u)` fragments to come complete the batch, whichever they are. */
  lemma {:induction false} RestArrives(bs: Batches, es: seq<Event>, u: Bytes, id: BatchId, order: seq<nat>, k: nat)
    requires Indices(order, u) && k < Count(u) && k <= |order| && Carries(es, u, id, order)
    requires id in bs && Gathered(bs[id], u, order, k)
    ensures Applied(bs, es[k..], id) == if |order| < Count(u) then [] else [Delivered(u, order[..Count(u)])]
    decreases Count(u) - k
  {
    if k < |order| {
      var b := Put(bs[id], order[k], Piece(u, order[k]));
      PutGathers(bs[id], u, order, k);
      var e := es[k];
      assert e.message == Fragment(id, order[k], Piece(u, order[k]));
      assert es[k..][0] == e && es[k..][1..] == es[k + 1..];
      if k + 1 < Count(u) {
        RestArrives(bs[id := b], es, u, id, order, k + 1);
      } else {
        CompleteAssembles(b, u, order, k + 1);
        AllFragments(es, u, id, order, k + 1);
        NothingArrives(bs - {id}, es[k + 1..], id);
      }
    }
  }

  lemma AllFragments(es: seq<Event>, u: Bytes, id: BatchId, order: seq<nat>, k: nat)
    requires Carries(es, u, id, order) && k <= |es|
    ensures forall e :: e in es[k..] ==> e.message.Fragment?
  {
    forall e | e in es[k..] ensures e.message.Fragment? {
      var i :| 0 <= i < |es[k..]| && es[k..][i] == e;
      assert es[k + i].message.Fragment?;
    }
  }

  /** Fragments of a batch the room does not hold apply nothing. */
  lemma {:induction false} NothingArrives(bs: Batches, es: seq<Event>, id: BatchId)
    requires id !in bs && forall e :: e in es ==> e.message.Fragment?
    ensures Applied(bs, es, id) == []
    decreases |es|
  {
    if es != [] {
      assert es[0].message.Fragment?;
      ReceiveIsLocal(bs, bs, es[0], id);
      NothingArrives(Receive(bs, es[0]).0, es[1..], id);
    }
  }

  /** What the room checks of a header; the fragment count never decides for a cut update. */
  predicate Admitted(e: Event, total: nat) {
    e.joined && total <= MAX_REASSEMBLED_BYTES && !(e.penalized && total > PENALTY_PROBE_MAX_BYTES)
  }

  lemma AdmittedArrives(bs: Batches, header: Event, parts: seq<Event>, u: Bytes, id: BatchId, order: seq<nat>)
    requires u != [] && Admitted(header, |u|) && header.message == FragmentHeader(id, Count(u), |u|)
    requires Indices(order, u) && Carries(parts, u, id, order)
    ensures Receive(bs, header).1 == Silent
    ensures Applied(Receive(bs, header).0, parts, id) == if |order| < Count(u) then [] else [Delivered(u, order[..Count(u)])]
  {
    var bs' := Receive(bs, header).0;
    assert PartsOf(u, order[..0]) == seq(Count(u), _ => Some([]));
    assert id in bs' && Gathered(bs'[id], u, order, 0);
    RestArrives(bs', parts, u, id, order, 0);
    assert parts[0..] == parts;
  }

  lemma RefusedVanishes(bs: Batches, header: Event, parts: seq<Event>, u: Bytes, id: BatchId, order: seq<nat>)
    requires id !in bs && !Admitted(header, |u|) && header.message == FragmentHeader(id, Count(u), |u|)
    requires Carries(parts, u, id, order)
    ensures Applied(Receive(bs, header).0, parts, id) == [] && !Receive(bs, header).1.Apply?
  {
    AllFragments(parts, u, id, order, 0);
    assert parts[0..] == parts;
    NothingArrives(bs, parts, id);
  }

  /** The traffic of one fragmented update among any other: its header, then fragments of it in
      some order, perhaps repeated, perhaps not all. */
  ghost predicate Delivery(es: seq<Event>, u: Bytes, id: BatchId, header: Event, parts: seq<Event>, order: seq<nat>) {
    && Only(es, id) == [header] + parts && header.message == FragmentHeader(id, Count(u), |u|)
    && Indices(order, u) && Carries(parts, u, id, order)
  }

  /** For every order and multiplicity of the fragments and every interleaving with other traffic:
      nothing is applied unless the header is admitted and enough fragments come; then one update
      is, made of the first fragments to come. */
  lemma DeliveryApplies(bs: Batches, es: seq<Event>, u: Bytes, id: BatchId, header: Event, parts: seq<Event>, order: seq<nat>)
    requires u != [] && id !in bs && Delivery(es, u, id, header, parts, order)
    ensures Applied(bs, es, id) ==
            if Admitted(header, |u|) && |order| >= Count(u) then [Delivered(u, order[..Count(u)])] else []
  {
    InterleavingIsHarmless(bs, bs, es, id);
    var mine := [header] + parts;
    assert mine[0] == header && mine[1..] == parts;
    if Admitted(header, |u|) {
      AdmittedArrives(bs, header, parts, u, id, order);
    } else {
      RefusedVanishes(bs, header, parts, u, id, order);
    }
  }

  /** An update that does not end in a zero is applied as it was if and only if its header is
      admitted and the first `Count(u)` fragments to come are all of them: a repeat among them
      corrupts it. */
  lemma RestoredExactly(bs: Batches, es: seq<Event>, u: Bytes, id: BatchId, header: Event, parts: seq<Event>, order: seq<nat>)
    requires u != [] && u[|u| - 1] != 0 && id !in bs && Delivery(es, u, id, header, parts, order)
    ensures Applied(bs, es, id) == [u] <==>
            Admitted(header, |u|) && |order| >= Count(u) && AllOccur(order[..Count(u)], Count(u))
  {
    DeliveryApplies(bs, es, u, id, header, parts, order);
    if |order| >= Count(u) {
      var first := order[..Count(u)];
      if AllOccur(first, Count(u)) { DeliveredWhole(u, first); } else { DeliveredShort(u, first); }
    }
  }

  /** A fragmented update is applied exactly once, exactly as it was, for every order of its
      fragments and every interleaving with other traffic, if and only if its header is admitted;
      otherwise nothing is applied. */
  lemma Reassembles(bs: Batches, es: seq<Event>, u: Bytes, id: BatchId, header: Event, parts: seq<Event>, order: seq<nat>)
    requires u != [] && id !in bs && Delivery(es, u, id, header, parts, order) && Permutation(order, Count(u))
    ensures Applied(bs, es, id) == if Admitted(header, |u|) then [u] else []
  {
    DeliveryApplies(bs, es, u, id, header, parts, order);
    assert order[..Count(u)] == order;
    DeliveredWhole(u, order);
  }

  // ---------------------------------------------------------------------------
  // From one end to the other

  /** Messages as a member in good standing sends them. */
  function Tagged(ms: seq<Message>): seq<Event> {
    if ms == [] then [] else [Event(ms[0], true, false)] + Tagged(ms[1..])
  }

  lemma {:induction false} OnlyConcat(a: seq<Message>, b: seq<Message>, id: BatchId)
    ensures Only(Tagged(a + b), id) == Only(Tagged(a), id) + Only(Tagged(b), id)
    decreases |a|
  {
    if a == [] {
      assert a + b == b;
    } else {
      var e := Event(a[0], true, false);
      assert (a + b)[0] == a[0] && (a + b)[1..] == a[1..] + b;
      OnlyConcat(a[1..], b, id);
      OnlyCons(e, Tagged(a[1..] + b), id);
      OnlyCons(e, Tagged(a[1..]), id);
    }
  }

  /** A part that holds nothing of a batch may be left aside. */
  lemma OnlyOneSide(a: seq<Message>, b: seq<Message>, id: BatchId)
    ensures Only(Tagged(a), id) == [] ==> Only(Tagged(a + b), id) == Only(Tagged(b), id)
    ensures Only(Tagged(b), id) == [] ==> Only(Tagged(a + b), id) == Only(Tagged(a), id)
  {
    OnlyConcat(a, b, id);
  }

  lemma OnlyCons(e: Event, es: seq<Event>, id: BatchId)
    ensures Only([e] + es, id) == (if e.message.batchId == id then [e] else []) + Only(es, id)
  {
    assert ([e] + es)[1..] == es;
  }

  lemma {:induction false} OnlyWhere(ms: seq<Message>, owner: BatchId, id: BatchId)
    requires forall m :: m in ms ==> m.batchId == owner
    ensures Only(Tagged(ms), id) == if id == owner then Tagged(ms) else []
  {
    if ms != [] {
      OnlyCons(Event(ms[0], true, false), Tagged(ms[1..]), id);
      OnlyWhere(ms[1..], owner, id);
    }
  }

  lemma {:induction false} OnlyBatches(bs: seq<seq<Bytes>>, first: BatchId, id: BatchId)
    requires id >= first + |bs|
    ensures Only(Tagged(BatchMessages(bs, first)), id) == []
    decreases |bs|
  {
    if bs != [] {
      var rest := BatchMessages(bs[1..], first + 1);
      OnlyBatches(bs[1..], first + 1, id);
      assert ([DocUpdate(first, bs[0])] + rest)[1..] == rest;
      OnlyCons(Event(DocUpdate(first, bs[0]), true, false), Tagged(rest), id);
    }
  }

  lemma {:induction false} OnlyLarge(us: seq<Bytes>, first: BatchId, k: nat)
    requires k < |us|
    ensures Only(Tagged(LargeMessages(us, first)), first + k) == Tagged(Cut(us[k], first + k))
    decreases |us|
  {
    OnlyCut(us[0], first, first + k);
    OnlyOneSide(Cut(us[0], first), LargeMessages(us[1..], first + 1), first + k);
    if k == 0 {
      OnlyEarlier(us[1..], first + 1, first);
    } else {
      OnlyLarge(us[1..], first + 1, k - 1);
    }
  }

  lemma OnlyCut(u: Bytes, owner: BatchId, id: BatchId)
    ensures Only(Tagged(Cut(u, owner)), id) == if id == owner then Tagged(Cut(u, owner)) else []
  {
    assert forall m :: m in FragmentsFrom(u, owner, 0) ==> m.batchId == owner;
    OnlyWhere(Cut(u, owner), owner, id);
  }

  lemma {:induction false} OnlyEarlier(us: seq<Bytes>, first: BatchId, id: BatchId)
    requires id < first
    ensures Only(Tagged(LargeMessages(us, first)), id) == []
    decreases |us|
  {
    if us != [] {
      OnlyCut(us[0], first, id);
      OnlyOneSide(Cut(us[0], first), LargeMessages(us[1..], first + 1), id);
      OnlyEarlier(us[1..], first + 1, id);
    }
  }

  lemma {:induction false} TaggedAt(ms: seq<Message>, k: nat)
    ensures |Tagged(ms)| == |ms|
    ensures k < |ms| ==> Tagged(ms)[k] == Event(ms[k], true, false)
    decreases |ms|
  {
    if ms != [] { TaggedAt(ms[1..], if k > 0 then k - 1 else 0); }
  }

  lemma FragmentsInOrder(u: Bytes, id: BatchId, k: nat)
    requires k < Count(u)
    ensures |Tagged(FragmentsFrom(u, id, 0))| == Count(u)
    ensures Tagged(FragmentsFrom(u, id, 0))[k].message == Fragment(id, k, Piece(u, k))
  {
    TaggedAt(FragmentsFrom(u, id, 0), k);
  }

  /** What one call sends: batches that do not concern a fragmented update, and its own fragments. */
  lemma Halves(bs: seq<seq<Bytes>>, large: seq<Bytes>, first: BatchId, k: nat, id: BatchId) returns (small: seq<Message>, big: seq<Message>)
    requires k < |large| && id == first + |bs| + k
    ensures small == BatchMessages(bs, first) && big == LargeMessages(large, first + |bs|)
    ensures Only(Tagged(small), id) == []
    ensures Only(Tagged(big), id) == Tagged(Cut(large[k], id))
  {
    small := BatchMessages(bs, first);
    OnlyBatches(bs, first, id);
    big := LargeMessages(large, first + |bs|);
    OnlyLarge(large, first + |bs|, k);
  }

  lemma OwnMessages(us: seq<Bytes>, first: BatchId, k: nat, id: BatchId)
    requires k < |LargeOnes(us)| && id == first + |Pack(us, [])| + k
    ensures Only(Tagged(Sent(us, first)), id) == Tagged(Cut(LargeOnes(us)[k], id))
  {
    var small, big := Halves(Pack(us, []), LargeOnes(us), first, k, id);
    OnlyOneSide(small, big, id);
  }

  function Counting(n: nat): seq<nat> {
    seq(n, i => i)
  }

  lemma CountingIsPermutation(n: nat)
    ensures Permutation(Counting(n), n)
  {
    forall i: nat | i < n ensures i in Counting(n) { assert Counting(n)[i] == i; }
  }

  lemma FragmentsCarry(u: Bytes, id: BatchId, order: seq<nat>)
    requires u != [] && |order| == Count(u) && forall i :: 0 <= i < Count(u) ==> order[i] == i
    ensures Carries(Tagged(FragmentsFrom(u, id, 0)), u, id, order)
  {
    var parts := Tagged(FragmentsFrom(u, id, 0));
    FragmentsInOrder(u, id, 0);
    forall i | 0 <= i < |parts| ensures parts[i].message == Fragment(id, order[i], Piece(u, order[i])) {
      FragmentsInOrder(u, id, i);
    }
  }

  lemma CutInOrder(u: Bytes, id: BatchId) returns (order: seq<nat>)
    requires u != []
    ensures Permutation(order, Count(u)) && Carries(Tagged(FragmentsFrom(u, id, 0)), u, id, order)
    ensures Tagged(Cut(u, id)) == [Event(FragmentHeader(id, Count(u), |u|), true, false)] + Tagged(FragmentsFrom(u, id, 0))
  {
    order := Counting(Count(u));
    CountingIsPermutation(Count(u));
    FragmentsCarry(u, id, order);
    assert Cut(u, id)[1..] == FragmentsFrom(u, id, 0);
  }

  lemma {:induction false} LargeIsLarge(us: seq<Bytes>, u: Bytes)
    requires u in LargeOnes(us)
    ensures !Small(u)
  {
    if Small(us[0]) || u != us[0] { LargeIsLarge(us[1..], u); }
  }

  /** Every large update one call sends arrives as it was, once, unless it is over the limit. */
  lemma SentArrives(us: seq<Bytes>, first: BatchId, k: nat)
    requires k < |LargeOnes(us)|
    ensures var u := LargeOnes(us)[k];
            Applied(map[], Tagged(Sent(us, first)), first + |Pack(us, [])| + k) == if |u| <= MAX_REASSEMBLED_BYTES then [u] else []
  {
    var u, id := LargeOnes(us)[k], first + |Pack(us, [])| + k;
    LargeIsLarge(us, u);
    OwnMessages(us, first, k, id);
    var order := CutInOrder(u, id);
    var header := Event(FragmentHeader(id, Count(u), |u|), true, false);
    var parts := Tagged(FragmentsFrom(u, id, 0));
    assert Indices(order, u);
    Reassembles(map[], Tagged(Sent(us, first)), u, id, header, parts, order);
  }

  /** Fragments are counted, not ticked off: one delivered twice in place of another completes the
      batch early, with zeros where bytes are missing. */
  lemma DuplicateCorrupts(u: Bytes, id: BatchId)
    requires Count(u) == 2 && |u| <= MAX_REASSEMBLED_BYTES && u[|u| - 1] != 0
    ensures var header, first := Event(FragmentHeader(id, 2, |u|), true, false), Event(Fragment(id, 0, Piece(u, 0)), true, false);
            Applied(map[], [header, first, first], id) != [u]
  {
    var header, first := Event(FragmentHeader(id, 2, |u|), true, false), Event(Fragment(id, 0, Piece(u, 0)), true, false);
    var parts := [first, first];
    assert [header, first, first] == [header] + parts;
    OnlyCons(first, [], id);
    OnlyCons(first, [first], id);
    assert [first] + [] == [first] && [first] + [first] == parts;
    OnlyCons(header, parts, id);
    var order: seq<nat> := [0, 0];
    assert 1 !in order;
    RestoredExactly(map[], [header, first, first], u, id, header, parts, order);
    assert order[..2] == order;
  }
}
