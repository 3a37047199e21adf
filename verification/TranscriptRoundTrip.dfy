/**
 When does a viewer that applies `Diff(prev, next)` to `prev` hold `next`?  Exactly when the frame
 is a reset, or the entries the delta does not re-send already stand in the right order among
 themselves and every text append restores its entry.
 */
module TranscriptRoundTrip {
  import opened Wrappers
  import opened Utf8
  import opened Transcript
  import opened TranscriptDelta

  // ---------------------------------------------------------------------------
  // Filtering by id

  lemma {:induction false} OnlyConcat(a: seq<Entry>, b: seq<Entry>, keep: set<string>)
    ensures Only(a + b, keep) == Only(a, keep) + Only(b, keep)
  {
    if a == [] {
      assert a + b == b;
    } else {
      assert (a + b)[0] == a[0] && (a + b)[1..] == a[1..] + b;
      OnlyConcat(a[1..], b, keep);
    }
  }

  lemma {:induction false} OnlyMember(es: seq<Entry>, keep: set<string>, e: Entry)
    ensures e in Only(es, keep) <==> e in es && e.id in keep
  {
    if es != [] { OnlyMember(es[1..], keep, e); }
  }

  /** Filtering looks only at the ids that occur. */
  lemma {:induction false} OnlyAgree(es: seq<Entry>, a: set<string>, b: set<string>)
    requires forall e :: e in es ==> (e.id in a <==> e.id in b)
    ensures Only(es, a) == Only(es, b)
  {
    if es != [] {
      assert es[0] in es;
      OnlyAgree(es[1..], a, b);
    }
  }

  lemma {:induction false} OnlyAll(es: seq<Entry>, keep: set<string>)
    requires forall e :: e in es ==> e.id in keep
    ensures Only(es, keep) == es
  {
    if es != [] {
      assert es[0] in es;
      OnlyAll(es[1..], keep);
    }
  }

  lemma {:induction false} OnlyOnly(es: seq<Entry>, a: set<string>, b: set<string>)
    requires b <= a
    ensures Only(Only(es, a), b) == Only(es, b)
  {
    if es != [] {
      OnlyOnly(es[1..], a, b);
      var head := if es[0].id in a then [es[0]] else [];
      OnlyConcat(head, Only(es[1..], a), b);
      assert head != [] ==> head[1..] == [];
    }
  }

  lemma {:induction false} IdsOnly(a: seq<Entry>, b: seq<Entry>, keep: set<string>)
    requires Ids(a) == Ids(b)
    ensures Ids(Only(a, keep)) == Ids(Only(b, keep))
  {
    assert |a| == |Ids(a)| == |Ids(b)| == |b|;
    if a != [] {
      assert a[0].id == Ids(a)[0] == Ids(b)[0] == b[0].id;
      assert Ids(a[1..]) == Ids(a)[1..] == Ids(b)[1..] == Ids(b[1..]);
      IdsOnly(a[1..], b[1..], keep);
      var x, y := Only(a[1..], keep), Only(b[1..], keep);
      if a[0].id in keep {
        IdsConcat([a[0]], x);
        IdsConcat([b[0]], y);
        assert Ids([a[0]]) == Ids([b[0]]);
      } else {
        assert [] + x == x && [] + y == y;
      }
    }
  }

  lemma IdsConcat(a: seq<Entry>, b: seq<Entry>)
    ensures Ids(a + b) == Ids(a) + Ids(b)
  {}

  /** Two lists drawn from one list without duplicates are equal when their ids are. */
  lemma SameIdsSameEntries(src: seq<Entry>, a: seq<Entry>, b: seq<Entry>)
    requires Unique(src) && Ids(a) == Ids(b)
    requires forall e :: e in a || e in b ==> e in src
    ensures a == b
  {
    assert |a| == |Ids(a)| == |Ids(b)| == |b|;
    forall i | 0 <= i < |a| ensures a[i] == b[i] {
      assert a[i].id == Ids(a)[i] == Ids(b)[i] == b[i].id;
      assert a[i] in src && b[i] in src;
    }
  }

  /** Splitting a list around the first occurrence of an id is unambiguous. */
  lemma SplitUnique(p: seq<Entry>, x: Entry, q: seq<Entry>, p': seq<Entry>, x': Entry, q': seq<Entry>)
    requires p + [x] + q == p' + [x'] + q'
    requires x.id == x'.id
    requires forall e :: e in p || e in p' ==> e.id != x.id
    ensures p == p' && x == x' && q == q'
  {
    if |p| < |p'| { SplitShorter(p, x, q, p', x', q'); }
    if |p'| < |p| { SplitShorter(p', x', q', p, x, q); }
    var s, t := p + [x] + q, p' + [x'] + q';
    assert p == s[..|p|] && p' == t[..|p'|] && q == s[|p| + 1..] && q' == t[|p'| + 1..];
    assert x == s[|p|] && x' == t[|p'|];
  }

  lemma SplitShorter(p: seq<Entry>, x: Entry, q: seq<Entry>, p': seq<Entry>, x': Entry, q': seq<Entry>)
    requires p + [x] + q == p' + [x'] + q' && |p| < |p'|
    ensures x in p'
  {
    assert (p + [x] + q)[|p|] == x && (p' + [x'] + q')[|p|] == p'[|p|];
  }

  // ---------------------------------------------------------------------------
  // What the delta keeps

  ghost function KeptIds(prev: seq<Entry>, next: seq<Entry>): set<string> {
    set i | 0 <= i < |next| && Kept(prev, next, i) :: next[i].id
  }

  /** The entries the delta does not re-send stand in the same order in both transcripts. */
  ghost predicate KeptInOrder(prev: seq<Entry>, next: seq<Entry>) {
    var k := KeptIds(prev, next);
    Ids(Only(prev, k)) == Ids(Only(next, k))
  }

  /** The transcript between the upserts and the appends. */
  ghost function Middle(prev: seq<Entry>, next: seq<Entry>): seq<Entry> {
    seq(|next|, i requires 0 <= i < |next| =>
      if Kept(prev, next, i) then prev[Recall(prev, next[i].id)] else next[i])
  }

  lemma MiddleIds(prev: seq<Entry>, next: seq<Entry>)
    ensures Ids(Middle(prev, next)) == Ids(next)
  {}

  lemma KeptIdsAt(prev: seq<Entry>, next: seq<Entry>, i: nat)
    requires Unique(next) && i < |next|
    ensures next[i].id in KeptIds(prev, next) <==> Kept(prev, next, i)
  {}

  lemma InIdSet(es: seq<Entry>, i: nat)
    requires i < |es|
    ensures es[i].id in IdSet(es)
  {
    assert es[i] in es;
  }

  lemma KeptIdsSubset(prev: seq<Entry>, next: seq<Entry>)
    ensures KeptIds(prev, next) <= IdSet(next)
  {
    forall id | id in KeptIds(prev, next) ensures id in IdSet(next) {
      var i :| 0 <= i < |next| && Kept(prev, next, i) && next[i].id == id;
      InIdSet(next, i);
    }
  }

  // ---------------------------------------------------------------------------
  // Removals

  lemma {:induction false} RemovalsAre(prev: seq<Entry>, next: seq<Entry>, n: nat, id: string)
    requires n <= |prev|
    ensures id in Removals(prev, next, n) <==> id !in IdSet(next) && exists j :: 0 <= j < n && prev[j].id == id
  {
    if n > 0 { RemovalsAre(prev, next, n - 1, id); }
  }

  lemma {:induction false} WithoutIsOnly(es: seq<Entry>, gone: set<string>, keep: set<string>)
    requires forall e :: e in es ==> (e.id in gone <==> e.id !in keep)
    ensures Without(es, gone) == Only(es, keep)
  {
    if es != [] {
      assert es[0] in es;
      WithoutIsOnly(es[1..], gone, keep);
    }
  }

  lemma Survivors(prev: seq<Entry>, next: seq<Entry>)
    ensures var gone := set id | id in Removals(prev, next, |prev|);
            Without(prev, gone) == Only(prev, IdSet(next))
  {
    var gone := set id | id in Removals(prev, next, |prev|);
    forall e | e in prev ensures e.id in gone <==> e.id !in IdSet(next) {
      var j :| 0 <= j < |prev| && prev[j] == e;
      RemovalsAre(prev, next, |prev|, e.id);
    }
    WithoutIsOnly(prev, gone, IdSet(next));
  }

  lemma {:induction false} OnlyKeepsUnique(es: seq<Entry>, keep: set<string>)
    requires Unique(es)
    ensures Unique(Only(es, keep))
  {
    if es != [] {
      OnlyKeepsUnique(es[1..], keep);
      var rest := Only(es[1..], keep);
      forall j | 0 <= j < |rest| ensures rest[j].id != es[0].id {
        OnlyMember(es[1..], keep, rest[j]);
        var k :| 0 <= k < |es[1..]| && es[1..][k] == rest[j];
        assert es[k + 1].id != es[0].id;
      }
    }
  }

  // ---------------------------------------------------------------------------
  // Placing one entry

  lemma RemoveAt(cur: seq<Entry>, x: nat, i: nat)
    requires x < |cur| && i < |cur| - 1
    ensures Remove(cur, x)[i] == cur[if i < x then i else i + 1]
  {}

  lemma RemoveUnique(cur: seq<Entry>, x: nat)
    requires Unique(cur) && x < |cur|
    ensures Unique(Remove(cur, x))
  {
    var rest := Remove(cur, x);
    forall i, j | 0 <= i < j < |rest| ensures rest[i].id != rest[j].id {
      RemoveAt(cur, x, i);
      RemoveAt(cur, x, j);
    }
  }

  lemma RemoveMembers(cur: seq<Entry>, x: nat, e: Entry)
    requires Unique(cur) && x < |cur|
    ensures e in Remove(cur, x) <==> e in cur && e.id != cur[x].id
  {
    var rest := Remove(cur, x);
    if e in rest {
      var i :| 0 <= i < |rest| && rest[i] == e;
      RemoveAt(cur, x, i);
    }
    if e in cur && e.id != cur[x].id {
      var i :| 0 <= i < |cur| && cur[i] == e;
      var k := if i < x then i else i - 1;
      RemoveAt(cur, x, k);
      assert rest[k] == e;
    }
  }

  lemma RemoveOnly(cur: seq<Entry>, x: nat, keep: set<string>)
    requires x < |cur| && cur[x].id !in keep
    ensures Only(Remove(cur, x), keep) == Only(cur, keep)
  {
    var a, b := cur[..x], cur[x + 1..];
    assert cur == a + ([cur[x]] + b);
    OnlyConcat(a, [cur[x]] + b, keep);
    OnlyConcat([cur[x]], b, keep);
    assert Only([cur[x]], keep) == [] by { assert [cur[x]][1..] == []; }
    OnlyConcat(a, b, keep);
  }

  lemma TakeOutFacts(cur: seq<Entry>, id: string, keep: set<string>)
    requires Unique(cur) && id !in keep
    ensures var rest := TakeOut(cur, id);
            && Unique(rest)
            && (forall e :: e in rest <==> e in cur && e.id != id)
            && Only(rest, keep) == Only(cur, keep)
  {
    var x := Position(cur, id);
    if x < |cur| {
      RemoveUnique(cur, x);
      forall e ensures e in Remove(cur, x) <==> e in cur && e.id != cur[x].id { RemoveMembers(cur, x, e); }
      RemoveOnly(cur, x, keep);
    }
  }

  /** The anchor of an entry placed after `done`. */
  function AnchorOf(done: seq<Entry>): Option<string> {
    if done == [] then None else Some(done[|done| - 1].id)
  }

  /** Placing an entry extends the settled prefix `done` by it and leaves the settled rest alone. */
  lemma PlaceStep(cur: seq<Entry>, keep: set<string>, done: seq<Entry>, rest: seq<Entry>, e: Entry)
    requires Unique(cur) && Unique(done) && e.id !in keep
    requires Only(cur, keep) == done + rest
    ensures var r := Place(cur, Upsert(AnchorOf(done), e));
            && r.Ok? && Unique(r.value)
            && Only(r.value, keep + {e.id}) == done + [e] + rest
            && forall x :: x in r.value ==> x == e || x in cur
  {
    var out := TakeOut(cur, e.id);
    TakeOutFacts(cur, e.id, keep);
    if done == [] {
      assert done + rest == rest && done + [e] + rest == [e] + rest;
      PlaceAtHead(out, keep, e);
      InsertUnique(out, 0, e);
    } else {
      PlaceAtAnchor(out, keep, done, rest, e);
      InsertUnique(out, Position(out, done[|done| - 1].id) + 1, e);
    }
  }

  lemma PlaceAtHead(out: seq<Entry>, keep: set<string>, e: Entry)
    requires forall x :: x in out ==> x.id != e.id
    ensures Only(Insert(out, 0, e), keep + {e.id}) == [e] + Only(out, keep)
  {
    var keep' := keep + {e.id};
    assert Only([e], keep') == [e] by { assert [e][1..] == []; }
    OnlyConcat([e], out, keep');
    OnlyAgree(out, keep, keep');
    assert Insert(out, 0, e) == [e] + out;
  }

  lemma PlaceAtAnchor(out: seq<Entry>, keep: set<string>, done: seq<Entry>, rest: seq<Entry>, e: Entry)
    requires Unique(done) && done != [] && e.id !in keep
    requires forall x :: x in out ==> x.id != e.id
    requires Only(out, keep) == done + rest
    ensures var at := Position(out, done[|done| - 1].id);
            at < |out| && Only(Insert(out, at + 1, e), keep + {e.id}) == done + [e] + rest
  {
    AnchorSplit(out, keep, done, rest);
    var at := Position(out, done[|done| - 1].id);
    var a, x, b := out[..at], out[at], out[at + 1..];
    PlaceAfter(a, x, b, e, keep);
    assert Insert(out, at + 1, e) == a + ([x] + ([e] + b));
  }

  /** The anchor is where the settled prefix ends. */
  lemma AnchorSplit(out: seq<Entry>, keep: set<string>, done: seq<Entry>, rest: seq<Entry>)
    requires Unique(done) && done != [] && Only(out, keep) == done + rest
    ensures var y := done[|done| - 1];
            var at := Position(out, y.id);
            at < |out| && out[at] == y && y.id in keep &&
            Only(out[..at], keep) + [y] == done && Only(out[at + 1..], keep) == rest
  {
    var y, p0 := done[|done| - 1], done[..|done| - 1];
    assert done == p0 + [y];
    assert (done + rest)[|done| - 1] == y;
    OnlyMember(out, keep, y);
    forall z | z in p0 ensures z.id != y.id {
      var i :| 0 <= i < |p0| && p0[i] == z;
      assert done[i] == z;
    }
    SplitAtFirst(out, keep, p0, y, rest);
  }

  lemma SplitAtFirst(out: seq<Entry>, keep: set<string>, p0: seq<Entry>, y: Entry, rest: seq<Entry>)
    requires y in out && y.id in keep && Only(out, keep) == p0 + [y] + rest
    requires forall z :: z in p0 ==> z.id != y.id
    ensures var at := Position(out, y.id);
            at < |out| && out[at] == y && Only(out[..at], keep) == p0 && Only(out[at + 1..], keep) == rest
  {
    var at := Position(out, y.id);
    OnlySplit(out, at, keep);
    var a := Only(out[..at], keep);
    forall z | z in a ensures z.id != y.id {
      OnlyMember(out[..at], keep, z);
    }
    SplitUnique(a, out[at], Only(out[at + 1..], keep), p0, y, rest);
  }

  lemma OnlySplit(out: seq<Entry>, at: nat, keep: set<string>)
    requires at < |out| && out[at].id in keep
    ensures Only(out, keep) == Only(out[..at], keep) + [out[at]] + Only(out[at + 1..], keep)
  {
    var a, x, b := out[..at], out[at], out[at + 1..];
    assert out == a + ([x] + b);
    OnlyConcat(a, [x] + b, keep);
    OnlyConcat([x], b, keep);
    assert Only([x], keep) == [x] by { assert [x][1..] == []; }
  }

  lemma PlaceAfter(a: seq<Entry>, x: Entry, b: seq<Entry>, e: Entry, keep: set<string>)
    requires x.id in keep && e.id !in keep
    requires forall z :: z in a || z in b ==> z.id != e.id
    ensures Only(a + ([x] + ([e] + b)), keep + {e.id}) == Only(a, keep) + [x] + [e] + Only(b, keep)
  {
    var keep' := keep + {e.id};
    OnlyConcat(a, [x] + ([e] + b), keep');
    OnlyCons(x, [e] + b, keep');
    OnlyCons(e, b, keep');
    OnlyAgree(a, keep, keep');
    OnlyAgree(b, keep, keep');
    Reassociate(Only(a, keep), x, [e] + Only(b, keep));
    Reassociate(Only(a, keep) + [x], e, Only(b, keep));
  }

  lemma OnlyCons(e: Entry, es: seq<Entry>, keep: set<string>)
    requires e.id in keep
    ensures Only([e] + es, keep) == [e] + Only(es, keep)
  {
    assert ([e] + es)[1..] == es;
  }

  lemma Reassociate(a: seq<Entry>, e: Entry, b: seq<Entry>)
    ensures a + ([e] + b) == a + [e] + b
  {}

  lemma InsertUnique(es: seq<Entry>, i: nat, e: Entry)
    requires Unique(es) && i <= |es| && forall x :: x in es ==> x.id != e.id
    ensures Unique(Insert(es, i, e))
    ensures forall x :: x in Insert(es, i, e) ==> x == e || x in es
  {
    var out := Insert(es, i, e);
    forall j, k | 0 <= j < k < |out| ensures out[j].id != out[k].id {
      assert out[j] == if j < i then es[j] else if j == i then e else es[j - 1];
      assert out[k] == if k < i then es[k] else if k == i then e else es[k - 1];
    }
  }

  // ---------------------------------------------------------------------------
  // Placing them all

  /** After `n` entries: what is settled (the kept ids `k` and the first `n`) stands as in `m`. */
  ghost predicate Placed(k: set<string>, m: seq<Entry>, n: nat, cur: seq<Entry>)
    requires n <= |m|
  {
    && Unique(cur)
    && (forall e :: e in cur ==> e.id in IdSet(m))
    && Only(cur, k + IdSet(m[..n])) == m[..n] + Only(m[n..], k)
  }

  lemma SameIdSet(a: seq<Entry>, b: seq<Entry>)
    requires Ids(a) == Ids(b)
    ensures IdSet(a) == IdSet(b)
  {
    assert |a| == |Ids(a)| == |Ids(b)| == |b|;
    forall i | 0 <= i < |a| ensures a[i].id == b[i].id { assert a[i].id == Ids(a)[i] == Ids(b)[i]; }
    forall id ensures id in IdSet(a) <==> id in IdSet(b) {
      if id in IdSet(a) { var i :| 0 <= i < |a| && a[i].id == id; InIdSet(b, i); }
      if id in IdSet(b) { var i :| 0 <= i < |b| && b[i].id == id; InIdSet(a, i); }
    }
  }

  lemma PlacedStart(prev: seq<Entry>, next: seq<Entry>)
    requires Unique(prev) && Unique(next) && KeptInOrder(prev, next)
    ensures Placed(KeptIds(prev, next), Middle(prev, next), 0, Only(prev, IdSet(next)))
  {
    var k, m, cur := KeptIds(prev, next), Middle(prev, next), Only(prev, IdSet(next));
    OnlyKeepsUnique(prev, IdSet(next));
    KeptIdsSubset(prev, next);
    OnlyOnly(prev, IdSet(next), k);
    MiddleIds(prev, next);
    IdsOnly(m, next, k);
    forall e | e in Only(prev, k) || e in Only(m, k) ensures e in prev {
      OnlyMember(prev, k, e);
      OnlyMember(m, k, e);
      if e in Only(m, k) {
        var i :| 0 <= i < |m| && m[i] == e;
        KeptIdsAt(prev, next, i);
      }
    }
    SameIdsSameEntries(prev, Only(prev, k), Only(m, k));
    SameIdSet(m, next);
    assert k + IdSet(m[..0]) == k;
    assert m[..0] + Only(m[0..], k) == Only(m, k) by { assert m[0..] == m; }
    forall e | e in cur ensures e.id in IdSet(next) { OnlyMember(prev, IdSet(next), e); }
  }

  lemma IdSetSnoc(es: seq<Entry>, n: nat)
    requires n < |es|
    ensures IdSet(es[..n + 1]) == IdSet(es[..n]) + {es[n].id}
  {
    assert es[..n + 1] == es[..n] + [es[n]];
  }

  lemma OnlyTail(m: seq<Entry>, n: nat, k: set<string>)
    requires n < |m|
    ensures Only(m[n..], k) == (if m[n].id in k then [m[n]] else []) + Only(m[n + 1..], k)
    ensures m[..n + 1] == m[..n] + [m[n]]
  {
    assert m[n..][1..] == m[n + 1..];
  }

  lemma PlacedStepKept(k: set<string>, m: seq<Entry>, n: nat, cur: seq<Entry>)
    requires n < |m| && Placed(k, m, n, cur) && m[n].id in k
    ensures Placed(k, m, n + 1, cur)
  {
    IdSetSnoc(m, n);
    var keep, keep' := k + IdSet(m[..n]), k + IdSet(m[..n + 1]);
    assert keep' == keep;
    OnlyTail(m, n, k);
    Reassociate(m[..n], m[n], Only(m[n + 1..], k));
  }

  lemma PlacedStepMoved(k: set<string>, m: seq<Entry>, n: nat, cur: seq<Entry>)
    requires Unique(m) && n < |m| && Placed(k, m, n, cur) && m[n].id !in k
    ensures var r := Place(cur, Upsert(Before(m, n), m[n])); r.Ok? && Placed(k, m, n + 1, r.value)
  {
    var keep, done, rest := k + IdSet(m[..n]), m[..n], Only(m[n..], k);
    IdSetSnoc(m, n);
    OnlyTail(m, n, k);
    assert rest == Only(m[n + 1..], k);
    assert m[n].id !in IdSet(m[..n]);
    assert AnchorOf(done) == Before(m, n);
    PlaceStep(cur, keep, done, rest, m[n]);
    assert k + IdSet(m[..n + 1]) == keep + {m[n].id};
    InIdSet(m, n);
  }

  /** The values present from position `n` on. */
  function Listed<T>(g: seq<Option<T>>, n: nat): seq<T>
    requires n <= |g|
    decreases |g| - n
  {
    if n == |g| then [] else (if g[n].Some? then [g[n].value] else []) + Listed(g, n + 1)
  }

  lemma ListedStep<T>(g: seq<Option<T>>, n: nat)
    requires n < |g|
    ensures Listed(g, n) == if g[n].Some? then [g[n].value] + Listed(g, n + 1) else Listed(g, n + 1)
  {}

  /** The upsert of each entry, if it has one. */
  ghost function Sends(prev: seq<Entry>, next: seq<Entry>): seq<Option<Upsert>> {
    seq(|next|, i requires 0 <= i < |next| => if Kept(prev, next, i) then None else Some(Upsert(Before(next, i), next[i])))
  }

  /** The moves that settle the entries of `m` around the kept ids. */
  function Moves(k: set<string>, m: seq<Entry>): seq<Option<Upsert>> {
    seq(|m|, i requires 0 <= i < |m| => if m[i].id in k then None else Some(Upsert(Before(m, i), m[i])))
  }

  lemma {:induction false} UpsertsAreListed(prev: seq<Entry>, next: seq<Entry>, n: nat)
    requires n <= |next|
    ensures UpsertsFrom(prev, next, n) == Listed(Sends(prev, next), n)
    decreases |next| - n
  {
    if n < |next| { UpsertsAreListed(prev, next, n + 1); }
  }

  lemma UpsertsAreMoves(prev: seq<Entry>, next: seq<Entry>)
    requires Unique(next)
    ensures Sends(prev, next) == Moves(KeptIds(prev, next), Middle(prev, next))
  {
    var k, m := KeptIds(prev, next), Middle(prev, next);
    forall n | 0 <= n < |next| ensures Sends(prev, next)[n] == Moves(k, m)[n] {
      KeptIdsAt(prev, next, n);
      MiddleEntry(prev, next, n);
      MiddleBefore(prev, next, n);
    }
  }

  lemma MiddleEntry(prev: seq<Entry>, next: seq<Entry>, n: nat)
    requires n < |next|
    ensures Middle(prev, next)[n].id == next[n].id && (!Kept(prev, next, n) ==> Middle(prev, next)[n] == next[n])
  {}

  lemma MiddleBefore(prev: seq<Entry>, next: seq<Entry>, n: nat)
    requires n < |next|
    ensures Before(Middle(prev, next), n) == Before(next, n)
  {
    if n > 0 { MiddleEntry(prev, next, n - 1); }
  }

  lemma PlaceAllCons(cur: seq<Entry>, u: Upsert, us: seq<Upsert>)
    ensures PlaceAll(cur, [u] + us) == var r := Place(cur, u); if r.Err? then r else PlaceAll(r.value, us)
  {
    assert ([u] + us)[1..] == us;
  }

  lemma {:induction false} PlaceRest(k: set<string>, m: seq<Entry>, n: nat, cur: seq<Entry>)
    requires Unique(m) && n <= |m| && Placed(k, m, n, cur)
    ensures PlaceAll(cur, Listed(Moves(k, m), n)) == Ok(m)
    decreases |m| - n
  {
    if n == |m| {
      assert m[..|m|] == m && m[|m|..] == [];
      assert m + Only([], k) == m;
      OnlyAll(cur, k + IdSet(m));
    } else {
      ListedStep(Moves(k, m), n);
      if m[n].id in k {
        PlacedStepKept(k, m, n, cur);
        PlaceRest(k, m, n + 1, cur);
      } else {
        var u := Upsert(Before(m, n), m[n]);
        PlacedStepMoved(k, m, n, cur);
        PlaceAllCons(cur, u, Listed(Moves(k, m), n + 1));
        PlaceRest(k, m, n + 1, Place(cur, u).value);
      }
    }
  }

  lemma MiddleUnique(prev: seq<Entry>, next: seq<Entry>)
    requires Unique(next)
    ensures Unique(Middle(prev, next))
  {}

  /** With the kept entries in order, the upserts always find their anchors and leave exactly the
      middle transcript. */
  lemma UpsertsReachMiddle(prev: seq<Entry>, next: seq<Entry>)
    requires Unique(prev) && Unique(next) && KeptInOrder(prev, next)
    ensures PlaceAll(Only(prev, IdSet(next)), UpsertsFrom(prev, next, 0)) == Ok(Middle(prev, next))
  {
    PlacedStart(prev, next);
    MiddleUnique(prev, next);
    UpsertsAreListed(prev, next, 0);
    UpsertsAreMoves(prev, next);
    PlaceRest(KeptIds(prev, next), Middle(prev, next), 0, Only(prev, IdSet(next)));
  }

  // ---------------------------------------------------------------------------
  // Placement never reorders what it keeps

  lemma InsertKeepsOnly(es: seq<Entry>, i: nat, e: Entry, keep: set<string>)
    requires i <= |es| && e.id !in keep
    ensures Only(Insert(es, i, e), keep) == Only(es, keep)
  {
    var out := Insert(es, i, e);
    assert out[i] == e;
    assert Remove(out, i) == es;
    RemoveOnly(out, i, keep);
  }

  lemma PlaceKeepsOrder(cur: seq<Entry>, u: Upsert, keep: set<string>)
    requires Unique(cur) && u.entry.id !in keep && Place(cur, u).Ok?
    ensures Unique(Place(cur, u).value) && Only(Place(cur, u).value, keep) == Only(cur, keep)
  {
    var out := TakeOut(cur, u.entry.id);
    TakeOutFacts(cur, u.entry.id, keep);
    var at := Spot(out, u.after).value;
    InsertUnique(out, at, u.entry);
    InsertKeepsOnly(out, at, u.entry, keep);
  }

  lemma {:induction false} PlaceAllKeepsOrder(cur: seq<Entry>, us: seq<Upsert>, keep: set<string>)
    requires Unique(cur) && PlaceAll(cur, us).Ok? && forall u :: u in us ==> u.entry.id !in keep
    ensures Only(PlaceAll(cur, us).value, keep) == Only(cur, keep)
    decreases |us|
  {
    if us != [] {
      PlaceKeepsOrder(cur, us[0], keep);
      PlaceAllKeepsOrder(Place(cur, us[0]).value, us[1..], keep);
    }
  }

  lemma {:induction false} ListedFrom<T>(g: seq<Option<T>>, n: nat, u: T)
    requires n <= |g| && u in Listed(g, n)
    ensures Some(u) in g
    decreases |g| - n
  {
    if g[n] != Some(u) { ListedFrom(g, n + 1, u); }
  }

  // ---------------------------------------------------------------------------
  // Text appends

  /** First position where two part lists differ, or the length. */
  function FirstDiff(ps: seq<Part>, ns: seq<Part>): (i: nat)
    requires |ps| == |ns|
    ensures i <= |ps|
    ensures forall j :: 0 <= j < i ==> ps[j] == ns[j]
    ensures i < |ps| ==> ps[i] != ns[i]
  {
    if ps == [] || ps[0] != ns[0] then 0 else 1 + FirstDiff(ps[1..], ns[1..])
  }

  lemma {:induction false} ScanAfterFound(entry: string, ps: seq<Part>, ns: seq<Part>, a: TextAppend)
    requires |ps| == |ns|
    ensures Scan(entry, ps, ns, Some(a)) == if ps == ns then Some(a) else None
    decreases |ps|
  {
    if ps != [] {
      ScanAfterFound(entry, ps[1..], ns[1..], a);
      assert ps == [ps[0]] + ps[1..] && ns == [ns[0]] + ns[1..];
    }
  }

  /** A found append names the one part that differs, and how it grew. */
  lemma {:induction false} ScanFinds(entry: string, ps: seq<Part>, ns: seq<Part>)
    requires |ps| == |ns| && Scan(entry, ps, ns, None).Some?
    ensures var m := FirstDiff(ps, ns);
            && m < |ps| && Grew(ps[m], ns[m])
            && Scan(entry, ps, ns, None) == Some(AppendOf(entry, ps[m], ns[m]))
            && (forall j :: 0 <= j < |ps| && j != m ==> ps[j] == ns[j])
    decreases |ps|
  {
    if ps[0] == ns[0] {
      ScanFinds(entry, ps[1..], ns[1..]);
      var m := FirstDiff(ps[1..], ns[1..]);
      forall j | 0 <= j < |ps| && j != m + 1 ensures ps[j] == ns[j] {
        if j > 0 { assert ps[1..][j - 1] == ns[1..][j - 1]; }
      }
    } else {
      ScanAfterFound(entry, ps[1..], ns[1..], AppendOf(entry, ps[0], ns[0]));
      forall j | 0 < j < |ps| ensures ps[j] == ns[j] {
        assert ps[1..][j - 1] == ns[1..][j - 1];
      }
    }
  }

  /** The append lands on the part that grew, and no duration is lost. */
  predicate Restores(p: Entry, n: Entry)
    requires |p.parts| == |n.parts|
  {
    var m := FirstDiff(p.parts, n.parts);
    && p.durationMs == n.durationMs
    && (m < |p.parts| ==> BodyAt(p.parts, p.parts[m].id) == m)
  }

  lemma AppendRestores(p: Entry, n: Entry)
    requires p != n && TryTextAppend(p, n).Some?
    ensures AppendTo(p, TryTextAppend(p, n).value) == Ok(n) <==> Restores(p, n)
  {
    ScanFinds(n.id, p.parts, n.parts);
    var m, a := FirstDiff(p.parts, n.parts), TryTextAppend(p, n).value;
    var i := BodyAt(p.parts, a.part);
    assert i <= m;
    assert Grow(p.parts[m], a.text) == n.parts[m];
    if i == m {
      assert p.parts[m := n.parts[m]] == n.parts;
    } else if AppendTo(p, a).Ok? {
      assert AppendTo(p, a).value.parts[m] == p.parts[m] != n.parts[m];
    }
  }

  lemma TryNamesEntry(p: Entry, n: Entry)
    requires TryTextAppend(p, n).Some?
    ensures TryTextAppend(p, n).value.entry == n.id
  {
    ScanFinds(n.id, p.parts, n.parts);
  }

  /** The append of each entry, if it has one. */
  ghost function Growth(prev: seq<Entry>, next: seq<Entry>): seq<Option<TextAppend>> {
    seq(|next|, i requires 0 <= i < |next| => if Appends(prev, next, i) then Some(AppendAt(prev, next, i)) else None)
  }

  lemma {:induction false} AppendsAreListed(prev: seq<Entry>, next: seq<Entry>, n: nat)
    requires n <= |next|
    ensures AppendsFrom(prev, next, n) == Listed(Growth(prev, next), n)
    decreases |next| - n
  {
    if n < |next| { AppendsAreListed(prev, next, n + 1); }
  }

  /** Every append names the entry it belongs to. */
  ghost predicate NamesOwn(m: seq<Entry>, g: seq<Option<TextAppend>>) {
    |g| == |m| && forall i :: 0 <= i < |m| && g[i].Some? ==> g[i].value.entry == m[i].id
  }

  lemma GrowthNamesOwn(prev: seq<Entry>, next: seq<Entry>)
    ensures NamesOwn(Middle(prev, next), Growth(prev, next))
  {
    forall i | 0 <= i < |next| && Appends(prev, next, i) ensures AppendAt(prev, next, i).entry == Middle(prev, next)[i].id {
      TryNamesEntry(prev[Recall(prev, next[i].id)], next[i]);
    }
  }

  /** What becomes of each entry. */
  ghost function Outcomes(m: seq<Entry>, g: seq<Option<TextAppend>>): seq<Result<Entry, Desync>>
    requires |g| == |m|
  {
    seq(|m|, i requires 0 <= i < |m| => if g[i].Some? then AppendTo(m[i], g[i].value) else Ok(m[i]))
  }

  /** The first `n` entries have become their outcomes, the rest are untouched. */
  ghost predicate GrownTo(m: seq<Entry>, outs: seq<Result<Entry, Desync>>, n: nat, cur: seq<Entry>) {
    && |cur| == |m| == |outs| && n <= |m|
    && (forall i :: n <= i < |m| ==> cur[i] == m[i])
    && (forall i :: 0 <= i < n ==> outs[i] == Ok(cur[i]))
  }

  ghost predicate AllOk(outs: seq<Result<Entry, Desync>>, n: nat) {
    forall i :: n <= i < |outs| ==> outs[i].Ok?
  }

  lemma AllOkStep(outs: seq<Result<Entry, Desync>>, n: nat)
    requires n < |outs|
    ensures AllOk(outs, n) <==> outs[n].Ok? && AllOk(outs, n + 1)
  {}

  lemma AppendToKeepsId(e: Entry, a: TextAppend)
    ensures AppendTo(e, a).Ok? ==> AppendTo(e, a).value.id == e.id
  {}

  lemma OutcomeIds(m: seq<Entry>, g: seq<Option<TextAppend>>)
    requires |g| == |m|
    ensures forall i :: 0 <= i < |m| && Outcomes(m, g)[i].Ok? ==> Outcomes(m, g)[i].value.id == m[i].id
  {
    forall i | 0 <= i < |m| && g[i].Some? ensures AppendTo(m[i], g[i].value).Ok? ==> AppendTo(m[i], g[i].value).value.id == m[i].id {
      AppendToKeepsId(m[i], g[i].value);
    }
  }

  lemma GrownPosition(m: seq<Entry>, outs: seq<Result<Entry, Desync>>, n: nat, cur: seq<Entry>)
    requires Unique(m) && n < |m| && GrownTo(m, outs, n, cur)
    requires forall i :: 0 <= i < |m| && outs[i].Ok? ==> outs[i].value.id == m[i].id
    ensures Position(cur, m[n].id) == n
  {
    forall i | 0 <= i < n ensures cur[i].id == m[i].id { assert outs[i].Ok?; }
  }

  lemma GrownNext(m: seq<Entry>, outs: seq<Result<Entry, Desync>>, n: nat, cur: seq<Entry>)
    requires n < |m| && GrownTo(m, outs, n, cur) && outs[n].Ok?
    ensures GrownTo(m, outs, n + 1, cur[n := outs[n].value])
  {}

  lemma AppendAllCons(cur: seq<Entry>, a: TextAppend, grows: seq<TextAppend>)
    ensures AppendAll(cur, [a] + grows) == var r := Append(cur, a); if r.Err? then r else AppendAll(r.value, grows)
  {
    assert ([a] + grows)[1..] == grows;
  }

  /** An append finds its own entry and changes it alone. */
  lemma AppendFinds(m: seq<Entry>, g: seq<Option<TextAppend>>, n: nat, cur: seq<Entry>)
    requires Unique(m) && NamesOwn(m, g) && n < |m| && GrownTo(m, Outcomes(m, g), n, cur) && g[n].Some?
    ensures var out := Outcomes(m, g)[n];
            if out.Ok? then Append(cur, g[n].value) == Ok(cur[n := out.value]) else Append(cur, g[n].value).Err?
  {
    OutcomeIds(m, g);
    GrownPosition(m, Outcomes(m, g), n, cur);
  }

  /** One entry's turn: its append, if it has one, and the rest. */
  lemma PointwiseStep(m: seq<Entry>, g: seq<Option<TextAppend>>, n: nat, cur: seq<Entry>)
    requires Unique(m) && NamesOwn(m, g) && n < |m| && GrownTo(m, Outcomes(m, g), n, cur)
    ensures var out := Outcomes(m, g)[n];
            if out.Ok? then AppendAll(cur, Listed(g, n)) == AppendAll(cur[n := out.value], Listed(g, n + 1))
            else AppendAll(cur, Listed(g, n)).Err?
  {
    ListedStep(g, n);
    if g[n].Some? {
      AppendFinds(m, g, n, cur);
      AppendAllCons(cur, g[n].value, Listed(g, n + 1));
    } else {
      assert cur[n := m[n]] == cur;
    }
  }

  /** Each append touches its own entry only. */
  lemma {:induction false} AppendsArePointwise(m: seq<Entry>, g: seq<Option<TextAppend>>, n: nat, cur: seq<Entry>)
    requires Unique(m) && NamesOwn(m, g) && GrownTo(m, Outcomes(m, g), n, cur)
    ensures var r := AppendAll(cur, Listed(g, n));
            && (r.Ok? ==> GrownTo(m, Outcomes(m, g), |m|, r.value))
            && (r.Ok? <==> AllOk(Outcomes(m, g), n))
    decreases |m| - n
  {
    if n < |m| {
      var outs := Outcomes(m, g);
      PointwiseStep(m, g, n, cur);
      AllOkStep(outs, n);
      if outs[n].Ok? {
        GrownNext(m, outs, n, cur);
        AppendsArePointwise(m, g, n + 1, cur[n := outs[n].value]);
      }
    }
  }

  /** Every text append of the delta restores its entry. */
  ghost predicate AppendsRestore(prev: seq<Entry>, next: seq<Entry>) {
    forall i :: 0 <= i < |next| && Appends(prev, next, i) ==> Restores(prev[Recall(prev, next[i].id)], next[i])
  }

  lemma AppendsReachNext(prev: seq<Entry>, next: seq<Entry>)
    requires Unique(next)
    ensures AppendAll(Middle(prev, next), AppendsFrom(prev, next, 0)) == Ok(next) <==> AppendsRestore(prev, next)
  {
    var m, g := Middle(prev, next), Growth(prev, next);
    AppendsAreListed(prev, next, 0);
    GrowthNamesOwn(prev, next);
    MiddleUnique(prev, next);
    AppendsArePointwise(m, g, 0, m);
    var r := AppendAll(m, Listed(g, 0));
    forall i | 0 <= i < |next| && Appends(prev, next, i)
      ensures AppendTo(m[i], g[i].value) == Ok(next[i]) <==> Restores(prev[Recall(prev, next[i].id)], next[i])
    {
      AppendRestores(m[i], next[i]);
    }
    if AppendsRestore(prev, next) {
      assert AllOk(Outcomes(m, g), 0);
      forall i | 0 <= i < |next| ensures r.value[i] == next[i] {
        assert g[i].None? ==> m[i] == next[i];
      }
      assert r.value == next;
    }
  }

  // ---------------------------------------------------------------------------
  // The round trip

  /** Applying the diff to `prev` gives exactly `next` if and only if the frame is a reset, or the
      kept entries are in order and every text append restores its entry. */
  lemma RoundTrip(prev: seq<Entry>, next: seq<Entry>)
    requires Unique(prev) && Unique(next)
    ensures ApplyFrame(prev, Diff(prev, next)) == Ok(next) <==>
            Diff(prev, next).Reset? || (KeptInOrder(prev, next) && AppendsRestore(prev, next))
  {
    if Diff(prev, next).Delta? {
      Survivors(prev, next);
      var base, us, as0 := Only(prev, IdSet(next)), UpsertsFrom(prev, next, 0), AppendsFrom(prev, next, 0);
      if KeptInOrder(prev, next) {
        UpsertsReachMiddle(prev, next);
        AppendsReachNext(prev, next);
      } else if ApplyFrame(prev, Diff(prev, next)) == Ok(next) {
        OutOfOrderFails(prev, next);
      }
    }
  }

  lemma OutOfOrderFails(prev: seq<Entry>, next: seq<Entry>)
    requires Unique(prev) && Unique(next)
    requires PlaceAll(Only(prev, IdSet(next)), UpsertsFrom(prev, next, 0)).Ok?
    requires AppendAll(PlaceAll(Only(prev, IdSet(next)), UpsertsFrom(prev, next, 0)).value, AppendsFrom(prev, next, 0)) == Ok(next)
    ensures KeptInOrder(prev, next)
  {
    var base, us, as0 := Only(prev, IdSet(next)), UpsertsFrom(prev, next, 0), AppendsFrom(prev, next, 0);
    var k, cur := KeptIds(prev, next), PlaceAll(base, us).value;
    OnlyKeepsUnique(prev, IdSet(next));
    UpsertsAreListed(prev, next, 0);
    UpsertsAreMoves(prev, next);
    var moves := Moves(k, Middle(prev, next));
    forall u | u in us ensures u.entry.id !in k {
      ListedFrom(moves, 0, u);
      var i :| 0 <= i < |moves| && moves[i] == Some(u);
    }
    PlaceAllKeepsOrder(base, us, k);
    KeptIdsSubset(prev, next);
    OnlyOnly(prev, IdSet(next), k);
    AppendAllKeepsIds(cur, as0);
    IdsOnly(cur, next, k);
  }

  lemma AppendKeepsIds(cur: seq<Entry>, a: TextAppend)
    requires Append(cur, a).Ok?
    ensures Ids(Append(cur, a).value) == Ids(cur)
  {
    var x := Position(cur, a.entry);
    AppendToKeepsId(cur[x], a);
  }

  lemma {:induction false} AppendAllKeepsIds(cur: seq<Entry>, grows: seq<TextAppend>)
    requires AppendAll(cur, grows).Ok?
    ensures Ids(AppendAll(cur, grows).value) == Ids(cur)
    decreases |grows|
  {
    if grows != [] {
      AppendKeepsIds(cur, grows[0]);
      AppendAllKeepsIds(Append(cur, grows[0]).value, grows[1..]);
    }
  }

  // ---------------------------------------------------------------------------
  // A viewer over a whole run of frames

  /** Each transcript of a run is one the delta from its predecessor restores. */
  ghost predicate Tracked(ts: seq<seq<Entry>>) {
    |ts| <= 1 ||
    (&& Unique(ts[0]) && Unique(ts[1])
     && (Diff(ts[0], ts[1]).Reset? || (KeptInOrder(ts[0], ts[1]) && AppendsRestore(ts[0], ts[1])))
     && Tracked(ts[1..]))
  }

  /** The frames a run ships, one for each change. */
  function Frames(ts: seq<seq<Entry>>): seq<Frame> {
    if |ts| <= 1 then [] else [Diff(ts[0], ts[1])] + Frames(ts[1..])
  }

  function ApplyFrames(cur: seq<Entry>, fs: seq<Frame>): Result<seq<Entry>, Desync>
    decreases |fs|
  {
    if fs == [] then Ok(cur)
    else
      var r := ApplyFrame(cur, fs[0]);
      if r.Err? then r else ApplyFrames(r.value, fs[1..])
  }

  /** A viewer that starts in step stays in step for the whole run and never desyncs. */
  lemma {:induction false} MirrorRun(ts: seq<seq<Entry>>)
    requires ts != [] && Tracked(ts)
    ensures ApplyFrames(ts[0], Frames(ts)) == Ok(ts[|ts| - 1])
    decreases |ts|
  {
    if |ts| > 1 {
      RoundTrip(ts[0], ts[1]);
      MirrorRun(ts[1..]);
      var rest := Frames(ts[1..]);
      assert ([Diff(ts[0], ts[1])] + rest)[1..] == rest;
    }
  }

  // ---------------------------------------------------------------------------
  // Consequences

  /** Entries present in both transcripts keep their relative order, as in a list that only
      inserts and deletes. */
  ghost predicate SurvivorsInOrder(prev: seq<Entry>, next: seq<Entry>) {
    Ids(Only(prev, IdSet(next))) == Ids(Only(next, IdSet(prev)))
  }

  lemma KeptAreKnown(prev: seq<Entry>, next: seq<Entry>)
    ensures KeptIds(prev, next) <= IdSet(prev)
  {
    forall id | id in KeptIds(prev, next) ensures id in IdSet(prev) {
      var i :| 0 <= i < |next| && Kept(prev, next, i) && next[i].id == id;
      InIdSet(prev, Recall(prev, id));
    }
  }

  /** For transcripts whose surviving entries keep their order, with no duration change alongside a
      text append and text part ids unique in each entry, the round trip is exact. */
  lemma OrderedRoundTrip(prev: seq<Entry>, next: seq<Entry>)
    requires Unique(prev) && Unique(next) && SurvivorsInOrder(prev, next)
    requires forall i :: 0 <= i < |next| && Appends(prev, next, i) ==> prev[Recall(prev, next[i].id)].durationMs == next[i].durationMs
    requires forall e, i, j :: e in prev && 0 <= i < j < |e.parts| && TextBodied(e.parts[i]) && TextBodied(e.parts[j]) ==> e.parts[i].id != e.parts[j].id
    ensures ApplyFrame(prev, Diff(prev, next)) == Ok(next)
  {
    var k := KeptIds(prev, next);
    KeptIdsSubset(prev, next);
    KeptAreKnown(prev, next);
    OnlyOnly(prev, IdSet(next), k);
    OnlyOnly(next, IdSet(prev), k);
    IdsOnly(Only(prev, IdSet(next)), Only(next, IdSet(prev)), k);
    forall i | 0 <= i < |next| && Appends(prev, next, i) ensures Restores(prev[Recall(prev, next[i].id)], next[i]) {
      var p := prev[Recall(prev, next[i].id)];
      ScanFinds(next[i].id, p.parts, next[i].parts);
      var m := FirstDiff(p.parts, next[i].parts);
      assert p in prev;
      var b := BodyAt(p.parts, p.parts[m].id);
      assert b <= m;
    }
    RoundTrip(prev, next);
  }

  // ---------------------------------------------------------------------------
  // Where it fails

  lemma MovedBlock(x: Entry, y: Entry, a: Entry, b: Entry)
    requires Unique([x, y, a, b])
    ensures Unique([a, b, x, y]) && KeptIds([x, y, a, b], [a, b, x, y]) == {b.id, y.id}
  {
    var prev, next := [x, y, a, b], [a, b, x, y];
    assert prev[0].id != prev[1].id && prev[0].id != prev[2].id && prev[0].id != prev[3].id;
    assert prev[1].id != prev[2].id && prev[1].id != prev[3].id && prev[2].id != prev[3].id;
    RecallUnique(prev, 0); RecallUnique(prev, 1); RecallUnique(prev, 2); RecallUnique(prev, 3);
    assert !Kept(prev, next, 0) && Kept(prev, next, 1) && !Kept(prev, next, 2) && Kept(prev, next, 3);
    KeptIdsAt(prev, next, 1); KeptIdsAt(prev, next, 3);
  }

  /** Moving a block keeps an entry in the wrong place: the followers of the moved heads are not
      re-sent although their order among themselves changed. */
  lemma BlockMoveFails(x: Entry, y: Entry, a: Entry, b: Entry)
    requires Unique([x, y, a, b])
    ensures ApplyFrame([x, y, a, b], Diff([x, y, a, b], [a, b, x, y])) != Ok([a, b, x, y])
  {
    var prev, next := [x, y, a, b], [a, b, x, y];
    MovedBlock(x, y, a, b);
    var k := {b.id, y.id};
    assert prev[0].id != prev[1].id && prev[0].id != prev[3].id && prev[1].id != prev[2].id && prev[2].id != prev[3].id;
    OnlySecond(x, y, k); OnlySecond(a, b, k);
    assert prev == [x, y] + [a, b] && next == [a, b] + [x, y];
    OnlyConcat([x, y], [a, b], k); OnlyConcat([a, b], [x, y], k);
    assert Ids(Only(prev, k))[0] == y.id && Ids(Only(next, k))[0] == b.id;
    assert prev[1].id != prev[3].id;
    RoundTrip(prev, next);
  }

  lemma OnlySecond(p: Entry, q: Entry, k: set<string>)
    requires p.id !in k && q.id in k
    ensures Only([p, q], k) == [q]
  {
    assert [p, q][1..] == [q] && [q][1..] == [];
    assert Only([q], k) == [q] + Only([], k);
    assert Only([p, q], k) == [] + Only([q], k);
  }

  /** A duration stamped together with appended text is lost. */
  lemma DurationLost(e: Entry, ms: int)
    requires e.parts == [Text("t0", [])] && e.durationMs == None
    ensures var n := e.(parts := [Text("t0", [65])], durationMs := Some(ms));
            ApplyFrame([e], Diff([e], [n])) != Ok([n])
  {
    var n := e.(parts := [Text("t0", [65])], durationMs := Some(ms));
    assert Scan(n.id, e.parts[1..], n.parts[1..], Some(AppendOf(n.id, e.parts[0], n.parts[0]))).Some?;
    assert Recall([e], e.id) == 0;
    assert Appends([e], [n], 0);
    assert !Restores(e, n);
    RoundTrip([e], [n]);
    assert Diff([e], [n]).Delta?;
  }

  // ---------------------------------------------------------------------------
  // Streaming

  lemma RecallUnique(es: seq<Entry>, i: nat)
    requires Unique(es) && i < |es|
    ensures Recall(es, es[i].id) == i
  {}

  lemma {:induction false} ScanTail(entry: string, ps: seq<Part>, n: Part)
    requires ps != [] && ps[|ps| - 1] != n && Grew(ps[|ps| - 1], n)
    ensures var ns := ps[|ps| - 1 := n]; Scan(entry, ps, ns, None) == Some(AppendOf(entry, ps[|ps| - 1], n))
    decreases |ps|
  {
    var ns := ps[|ps| - 1 := n];
    if |ps| == 1 {
      assert ps[1..] == [] && ns[1..] == [];
    } else {
      ScanTail(entry, ps[1..], n);
      assert ns[1..] == ps[1..][|ps[1..]| - 1 := n];
    }
  }

  /** A transcript whose last entry's trailing text grew by `delta`. */
  function Streamed(prev: seq<Entry>, delta: Bytes): seq<Entry>
    requires prev != [] && prev[|prev| - 1].parts != [] && TextBodied(prev[|prev| - 1].parts[|prev[|prev| - 1].parts| - 1])
  {
    var e := prev[|prev| - 1];
    var p := e.parts[|e.parts| - 1];
    prev[|prev| - 1 := e.(parts := e.parts[|e.parts| - 1 := Grow(p, delta)])]
  }

  lemma StreamedAppend(e: Entry, n: Entry, delta: Bytes)
    requires delta != [] && e.parts != [] && TextBodied(e.parts[|e.parts| - 1])
    requires n == e.(parts := e.parts[|e.parts| - 1 := Grow(e.parts[|e.parts| - 1], delta)])
    ensures e != n
    ensures var p := e.parts[|e.parts| - 1]; TryTextAppend(e, n) == Some(TextAppend(e.id, p.id, delta, |p.text| + |delta|))
  {
    var p := e.parts[|e.parts| - 1];
    var g := Grow(p, delta);
    assert p.text <= g.text && g.text[|p.text|..] == delta;
    assert |g.text| != |p.text|;
    ScanTail(e.id, e.parts, g);
  }

  /** An entry that did not change, after an unchanged neighbour, ships nothing. */
  lemma UnchangedShipsNothing(prev: seq<Entry>, next: seq<Entry>, i: nat)
    requires Unique(prev) && |next| == |prev| && i < |prev| && next[i] == prev[i] && Before(next, i) == Before(prev, i)
    ensures Kept(prev, next, i) && !Appends(prev, next, i)
  {
    RecallUnique(prev, i);
  }

  lemma {:induction false} ShipsOnlyLast(prev: seq<Entry>, next: seq<Entry>, i: nat, a: TextAppend)
    requires prev != [] && |next| == |prev| && i <= |prev|
    requires forall j :: 0 <= j < |prev| ==> Kept(prev, next, j) && (Appends(prev, next, j) <==> j == |prev| - 1)
    requires AppendAt(prev, next, |prev| - 1) == a
    ensures UpsertsFrom(prev, next, i) == []
    ensures AppendsFrom(prev, next, i) == if i == |prev| then [] else [a]
    decreases |prev| - i
  {
    if i < |prev| {
      ShipsOnlyLast(prev, next, i + 1, a);
      assert Kept(prev, next, i);
    }
  }

  lemma StreamedFrom(prev: seq<Entry>, delta: Bytes)
    requires Unique(prev) && delta != []
    requires prev != [] && prev[|prev| - 1].parts != [] && TextBodied(prev[|prev| - 1].parts[|prev[|prev| - 1].parts| - 1])
    ensures var next, e := Streamed(prev, delta), prev[|prev| - 1];
            var p := e.parts[|e.parts| - 1];
            && UpsertsFrom(prev, next, 0) == []
            && AppendsFrom(prev, next, 0) == [TextAppend(e.id, p.id, delta, |p.text| + |delta|)]
  {
    var next, e, last := Streamed(prev, delta), prev[|prev| - 1], |prev| - 1;
    var p := e.parts[|e.parts| - 1];
    StreamedAppend(e, next[last], delta);
    forall j | 0 <= j < |prev| ensures Kept(prev, next, j) && (Appends(prev, next, j) <==> j == last) {
      assert next[j].id == prev[j].id && Before(next, j) == Before(prev, j);
      RecallUnique(prev, j);
      if j < last { UnchangedShipsNothing(prev, next, j); }
    }
    RecallUnique(prev, last);
    ShipsOnlyLast(prev, next, 0, TextAppend(e.id, p.id, delta, |p.text| + |delta|));
  }

  lemma {:induction false} NoRemovals(prev: seq<Entry>, next: seq<Entry>, n: nat)
    requires n <= |prev| && forall e :: e in prev ==> e.id in IdSet(next)
    ensures Removals(prev, next, n) == []
  {
    if n > 0 {
      NoRemovals(prev, next, n - 1);
      assert prev[n - 1] in prev;
    }
  }

  /** While a reply streams, a frame carries the new text and nothing else. */
  lemma StreamingShipsOnlyDelta(prev: seq<Entry>, delta: Bytes)
    requires Unique(prev) && delta != []
    requires prev != [] && prev[|prev| - 1].parts != [] && TextBodied(prev[|prev| - 1].parts[|prev[|prev| - 1].parts| - 1])
    ensures var e := prev[|prev| - 1];
            var p := e.parts[|e.parts| - 1];
            Diff(prev, Streamed(prev, delta)) == Delta([], [TextAppend(e.id, p.id, delta, |p.text| + |delta|)], [], |prev|)
  {
    var next := Streamed(prev, delta);
    StreamedFrom(prev, delta);
    forall e | e in prev ensures e.id in IdSet(next) {
      var i :| 0 <= i < |prev| && prev[i] == e;
      assert next[i].id == e.id;
      InIdSet(next, i);
    }
    NoRemovals(prev, next, |prev|);
  }

  // ---------------------------------------------------------------------------
  // What is sent, and what is checked

  /** How many entries from `i` on are re-sent. */
  function Resent(prev: seq<Entry>, next: seq<Entry>, i: nat): nat
    requires i <= |next|
    decreases |next| - i
  {
    if i == |next| then 0 else (if Kept(prev, next, i) then 0 else 1) + Resent(prev, next, i + 1)
  }

  lemma {:induction false} UpsertsAreResent(prev: seq<Entry>, next: seq<Entry>, i: nat)
    requires i <= |next|
    ensures |UpsertsFrom(prev, next, i)| == Resent(prev, next, i)
    decreases |next| - i
  {
    if i < |next| { UpsertsAreResent(prev, next, i + 1); }
  }

  /** A transcript is sent whole exactly when it has more than four entries and at least half of them
      would be re-sent; else the frame re-sends just those. */
  lemma ResetsExactly(prev: seq<Entry>, next: seq<Entry>)
    ensures Diff(prev, next) == Reset(next) <==> |next| > 4 && 2 * Resent(prev, next, 0) >= |next|
    ensures Diff(prev, next).Delta? ==> |Diff(prev, next).upsert| == Resent(prev, next, 0) && Diff(prev, next).count == |next|
  {
    UpsertsAreResent(prev, next, 0);
  }

  lemma {:induction false} ShipsOnlyNew(prev: seq<Entry>, e: Entry, i: nat)
    requires Unique(prev + [e]) && i <= |prev|
    ensures UpsertsFrom(prev, prev + [e], i) == [Upsert(Before(prev + [e], |prev|), e)]
    ensures AppendsFrom(prev, prev + [e], i) == []
    decreases |prev| - i
  {
    var next := prev + [e];
    if i < |prev| {
      ShipsOnlyNew(prev, e, i + 1);
      PrefixUnique(prev, e);
      RecallUnique(prev, i);
      assert next[i] == prev[i] && Before(next, i) == Before(prev, i);
      assert Kept(prev, next, i) && !Appends(prev, next, i);
    } else {
      NewIsUnknown(prev, e);
      assert UpsertsFrom(prev, next, |prev| + 1) == [] && AppendsFrom(prev, next, |prev| + 1) == [];
      assert !Kept(prev, next, |prev|);
    }
  }

  lemma PrefixUnique(prev: seq<Entry>, e: Entry)
    requires Unique(prev + [e])
    ensures Unique(prev)
  {
    forall i, j | 0 <= i < j < |prev| ensures prev[i].id != prev[j].id {
      assert (prev + [e])[i] == prev[i] && (prev + [e])[j] == prev[j];
    }
  }

  lemma NewIsUnknown(prev: seq<Entry>, e: Entry)
    requires Unique(prev + [e])
    ensures Recall(prev, e.id) == |prev|
  {
    var next := prev + [e];
    forall i | 0 <= i < |prev| ensures prev[i].id != e.id { assert next[i] == prev[i] && next[|prev|] == e; }
  }

  /** A new entry at the end ships that entry and nothing else, whatever the length. */
  lemma AppendingShipsOne(prev: seq<Entry>, e: Entry)
    requires Unique(prev + [e])
    ensures Diff(prev, prev + [e]) == Delta([Upsert(Before(prev + [e], |prev|), e)], [], [], |prev| + 1)
  {
    var next := prev + [e];
    ShipsOnlyNew(prev, e, 0);
    forall x | x in prev ensures x.id in IdSet(next) {
      var i :| 0 <= i < |prev| && prev[i] == x;
      InIdSet(next, i);
    }
    NoRemovals(prev, next, |prev|);
  }

  /** A frame that applies leaves the announced number of entries, whatever copy it met. */
  lemma AppliedMeansCounted(cur: seq<Entry>, f: Frame)
    requires f.Delta? && ApplyFrame(cur, f).Ok?
    ensures |ApplyFrame(cur, f).value| == f.count
  {}

  /** An append applies exactly to an entry with that part at the announced length, and adds the text. */
  lemma AppendIsChecked(e: Entry, a: TextAppend)
    ensures var i := BodyAt(e.parts, a.part);
            && (AppendTo(e, a).Ok? <==> i < |e.parts| && |e.parts[i].text| + |a.text| == a.len)
            && (AppendTo(e, a).Ok? ==> AppendTo(e, a).value == e.(parts := e.parts[i := Grow(e.parts[i], a.text)]))
  {}
}
