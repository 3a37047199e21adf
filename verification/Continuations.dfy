/**
 Joining continuation entries onto their roots, and the bounded opening tail read for first paint.
 */
module Continuations {
  import opened Wrappers
  import opened Transcript

  // ---------------------------------------------------------------------------
  // Joining

  datatype Joining = Joining(out: seq<Entry>, roots: map<string, nat>)

  ghost predicate RootsPoint(j: Joining) {
    forall id :: id in j.roots ==> j.roots[id] < |j.out|
  }

  function Absorb(root: Entry, e: Entry): Entry {
    root.(parts := root.parts + e.parts, durationMs := if e.durationMs.Some? then e.durationMs else root.durationMs)
  }

  /** A continuation joins the latest root with its id; an orphan stands as its own entry. */
  function JoinOne(j: Joining, e: Entry): (r: Joining)
    requires RootsPoint(j)
    ensures RootsPoint(r)
  {
    if e.continuationOf.None? then Joining(j.out + [e], j.roots[e.id := |j.out|])
    else if e.continuationOf.value in j.roots then
      var at := j.roots[e.continuationOf.value];
      j.(out := j.out[at := Absorb(j.out[at], e)])
    else j.(out := j.out + [e])
  }

  function JoinFrom(j: Joining, es: seq<Entry>): Joining
    requires RootsPoint(j)
    decreases |es|
  {
    if es == [] then j else JoinFrom(JoinOne(j, es[0]), es[1..])
  }

  function Join(es: seq<Entry>): seq<Entry> {
    JoinFrom(Joining([], map[]), es).out
  }

  method JoinContinuationEntries(es: seq<Entry>) returns (out: seq<Entry>)
    ensures out == Join(es)
  {
    var j := Joining([], map[]);
    if forall e :: e in es ==> e.continuationOf.None? {
      RootsOnly(j, es);
      assert [] + es == es;
      return es;
    }
    var i := 0;
    while i < |es|
      invariant 0 <= i <= |es| && RootsPoint(j)
      invariant JoinFrom(j, es[i..]) == JoinFrom(Joining([], map[]), es)
    {
      assert es[i..][1..] == es[i + 1..];
      j := JoinOne(j, es[i]);
      i := i + 1;
    }
    out := j.out;
  }

  lemma {:induction false} RootsOnly(j: Joining, es: seq<Entry>)
    requires RootsPoint(j) && forall e :: e in es ==> e.continuationOf.None?
    ensures JoinFrom(j, es).out == j.out + es
    decreases |es|
  {
    if es != [] {
      assert es[0] in es;
      RootsOnly(JoinOne(j, es[0]), es[1..]);
      assert j.out + [es[0]] + es[1..] == j.out + es;
    }
  }

  // ---------------------------------------------------------------------------
  // What joining keeps

  function PartCount(es: seq<Entry>): nat {
    |PartsOf(es)|
  }

  /** All the parts of a list of entries. */
  function PartsOf(es: seq<Entry>): multiset<Part> {
    if es == [] then multiset{} else PartsOf(es[..|es| - 1]) + multiset(es[|es| - 1].parts)
  }

  lemma {:induction false} PartsUpdate(es: seq<Entry>, at: nat, e: Entry, more: seq<Part>)
    requires at < |es| && e.parts == es[at].parts + more
    ensures PartsOf(es[at := e]) == PartsOf(es) + multiset(more)
  {
    var init := es[..|es| - 1];
    if at == |es| - 1 {
      assert es[at := e][..at] == init;
    } else {
      assert es[at := e][..|es| - 1] == init[at := e];
      PartsUpdate(init, at, e, more);
    }
  }

  lemma JoinOneKeepsParts(j: Joining, e: Entry)
    requires RootsPoint(j)
    ensures PartsOf(JoinOne(j, e).out) == PartsOf(j.out) + multiset(e.parts)
  {
    if e.continuationOf.Some? && e.continuationOf.value in j.roots {
      var at := j.roots[e.continuationOf.value];
      PartsUpdate(j.out, at, Absorb(j.out[at], e), e.parts);
    } else {
      assert (j.out + [e])[..|j.out|] == j.out;
    }
  }

  lemma {:induction false} PartsCons(es: seq<Entry>)
    requires es != []
    ensures PartsOf(es) == multiset(es[0].parts) + PartsOf(es[1..])
  {
    if |es| > 1 {
      PartsCons(es[..|es| - 1]);
      assert es[1..][..|es| - 2] == es[..|es| - 1][1..];
    } else {
      assert es[..0] == [] && es[1..] == [];
    }
  }

  lemma {:induction false} JoinFromKeepsParts(j: Joining, es: seq<Entry>)
    requires RootsPoint(j)
    ensures PartsOf(JoinFrom(j, es).out) == PartsOf(j.out) + PartsOf(es)
    decreases |es|
  {
    if es != [] {
      JoinOneKeepsParts(j, es[0]);
      PartsCons(es);
      JoinFromKeepsParts(JoinOne(j, es[0]), es[1..]);
    }
  }

  /** Joining neither drops, duplicates nor changes a part, whatever the order of the entries. */
  lemma JoinKeepsParts(es: seq<Entry>)
    ensures PartsOf(Join(es)) == PartsOf(es)
  {
    JoinFromKeepsParts(Joining([], map[]), es);
  }

  /** A part under the id of the message it is shown in. */
  datatype Shown = Shown(message: string, part: Part)

  function ShownAs(id: string, ps: seq<Part>): seq<Shown> {
    seq(|ps|, i requires 0 <= i < |ps| => Shown(id, ps[i]))
  }

  /** The parts of a joined transcript in order. */
  function Flat(es: seq<Entry>): seq<Shown> {
    if es == [] then [] else Flat(es[..|es| - 1]) + ShownAs(es[|es| - 1].id, es[|es| - 1].parts)
  }

  function RootOf(e: Entry): string {
    if e.continuationOf.Some? then e.continuationOf.value else e.id
  }

  /** The parts of the stored entries in order, each under its root's id. */
  function Stored(es: seq<Entry>): seq<Shown> {
    if es == [] then [] else Stored(es[..|es| - 1]) + ShownAs(RootOf(es[|es| - 1]), es[|es| - 1].parts)
  }

  /** Continuations immediately follow their root, and the first entry is a root. */
  predicate Grouped(es: seq<Entry>) {
    && (es != [] ==> es[0].continuationOf.None?)
    && forall i :: 0 < i < |es| && es[i].continuationOf.Some? ==> RootOf(es[i]) == RootOf(es[i - 1])
  }

  /** The last joined entry is the one the next continuation would join. */
  ghost predicate Current(j: Joining, root: string) {
    && RootsPoint(j) && j.out != []
    && j.out[|j.out| - 1].id == root
    && root in j.roots && j.roots[root] == |j.out| - 1
  }

  lemma JoinOneShows(j: Joining, e: Entry, root: string)
    requires RootsPoint(j)
    requires e.continuationOf.Some? ==> Current(j, root) && RootOf(e) == root
    ensures Current(JoinOne(j, e), RootOf(e))
    ensures Flat(JoinOne(j, e).out) == Flat(j.out) + ShownAs(RootOf(e), e.parts)
  {
    var r := JoinOne(j, e);
    if e.continuationOf.None? {
      assert r.out[..|j.out|] == j.out;
    } else {
      var n, last := |j.out|, j.out[|j.out| - 1];
      assert r.out[..n - 1] == j.out[..n - 1];
      assert ShownAs(root, last.parts + e.parts) == ShownAs(root, last.parts) + ShownAs(root, e.parts);
    }
  }

  lemma JoinFromSnoc(j: Joining, es: seq<Entry>, e: Entry)
    requires RootsPoint(j)
    ensures RootsPoint(JoinFrom(j, es)) && JoinFrom(j, es + [e]) == JoinOne(JoinFrom(j, es), e)
    decreases |es|
  {
    if es == [] {
      assert [] + [e] == [e] && [e][1..] == [];
    } else {
      assert (es + [e])[0] == es[0] && (es + [e])[1..] == es[1..] + [e];
      JoinFromSnoc(JoinOne(j, es[0]), es[1..], e);
    }
  }

  lemma {:induction false} JoinShows(es: seq<Entry>)
    requires Grouped(es)
    ensures var j := JoinFrom(Joining([], map[]), es);
            Flat(j.out) == Stored(es) && (es != [] ==> Current(j, RootOf(es[|es| - 1])))
    decreases |es|
  {
    if es != [] {
      var init, e := es[..|es| - 1], es[|es| - 1];
      assert es == init + [e];
      JoinShows(init);
      JoinFromSnoc(Joining([], map[]), init, e);
      JoinOneShows(JoinFrom(Joining([], map[]), init), e, if init == [] then "" else RootOf(init[|init| - 1]));
    }
  }

  // ---------------------------------------------------------------------------
  // What a message with continuations becomes

  function AllParts(es: seq<Entry>): seq<Part> {
    if es == [] then [] else es[0].parts + AllParts(es[1..])
  }

  /** The duration of the last entry that has one. */
  function LastDuration(es: seq<Entry>): Option<int> {
    if es == [] then None
    else if LastDuration(es[1..]).Some? then LastDuration(es[1..])
    else es[0].durationMs
  }

  /** A root with its continuations: the root's own fields, all the parts, the last duration. */
  function Whole(root: Entry, conts: seq<Entry>): Entry {
    root.(parts := root.parts + AllParts(conts), durationMs := LastDuration([root] + conts))
  }

  lemma LastDurationCons(e: Entry, es: seq<Entry>)
    ensures LastDuration([e] + es) == if LastDuration(es).Some? then LastDuration(es) else e.durationMs
  {
    assert ([e] + es)[1..] == es;
  }

  lemma {:induction false} ContinuationsJoin(j: Joining, conts: seq<Entry>, root: string)
    requires Current(j, root) && forall e :: e in conts ==> e.continuationOf == Some(root)
    ensures JoinFrom(j, conts).out == j.out[|j.out| - 1 := Whole(j.out[|j.out| - 1], conts)]
    decreases |conts|
  {
    var n, last := |j.out|, j.out[|j.out| - 1];
    if conts == [] {
      assert last.parts + [] == last.parts;
      LastDurationCons(last, []);
      assert Whole(last, []) == last;
    } else {
      var c, rest := conts[0], conts[1..];
      assert c in conts;
      var j' := JoinOne(j, c);
      ContinuationsJoin(j', rest, root);
      var next := j'.out[n - 1];
      assert last.parts + (c.parts + AllParts(rest)) == (last.parts + c.parts) + AllParts(rest);
      LastDurationCons(next, rest);
      LastDurationCons(last, conts);
      assert conts == [c] + rest;
      LastDurationCons(c, rest);
      assert Whole(next, rest) == Whole(last, conts);
    }
  }

  lemma {:induction false} JoinFromConcat(j: Joining, a: seq<Entry>, b: seq<Entry>)
    requires RootsPoint(j)
    ensures RootsPoint(JoinFrom(j, a)) && JoinFrom(j, a + b) == JoinFrom(JoinFrom(j, a), b)
    decreases |a|
  {
    if a == [] {
      assert a + b == b;
    } else {
      assert (a + b)[0] == a[0] && (a + b)[1..] == a[1..] + b;
      JoinFromConcat(JoinOne(j, a[0]), a[1..], b);
    }
  }

  /** After anything, a root and its continuations become one entry behind what was there. */
  lemma GroupBecomesOne(es: seq<Entry>, root: Entry, conts: seq<Entry>)
    requires root.continuationOf.None? && forall e :: e in conts ==> e.continuationOf == Some(root.id)
    ensures Join(es + ([root] + conts)) == Join(es) + [Whole(root, conts)]
  {
    var none := Joining([], map[]);
    JoinFromConcat(none, es, [root] + conts);
    var j := JoinFrom(none, es);
    assert ([root] + conts)[0] == root && ([root] + conts)[1..] == conts;
    var j' := JoinOne(j, root);
    ContinuationsJoin(j', conts, root.id);
  }

  lemma {:induction false} RootsKnown(es: seq<Entry>, id: string)
    ensures id in JoinFrom(Joining([], map[]), es).roots <==> exists e :: e in es && e.continuationOf.None? && e.id == id
  {
    if es != [] {
      var init, e := es[..|es| - 1], es[|es| - 1];
      assert es == init + [e];
      RootsKnown(init, id);
      JoinFromSnoc(Joining([], map[]), init, e);
    }
  }

  /** A continuation whose root is not there stands as its own entry, unchanged. */
  lemma OrphanStands(es: seq<Entry>, e: Entry)
    requires e.continuationOf.Some? && forall r :: r in es && r.continuationOf.None? ==> r.id != e.continuationOf.value
    ensures Join(es + [e]) == Join(es) + [e]
  {
    RootsKnown(es, e.continuationOf.value);
    JoinFromSnoc(Joining([], map[]), es, e);
  }

  // ---------------------------------------------------------------------------
  // The opening tail

  function Min(a: nat, b: nat): nat { if a < b then a else b }

  function Max(a: nat, b: nat): nat { if a < b then b else a }

  /** The last entries within a budget of parts; an entry without parts costs one. */
  function TailOf(es: seq<Entry>, budget: nat): seq<Entry> {
    if es == [] || budget == 0 then []
    else
      var e := es[|es| - 1];
      TailOf(es[..|es| - 1], Left(budget, |e.parts|)) + [LastParts(e, budget)]
  }

  /** The budget after an entry of `n` parts. */
  function Left(budget: nat, n: nat): (left: nat)
    requires budget > 0
    ensures left < budget
    ensures budget < n ==> left == 0
    ensures n > 0 && n <= budget ==> left == budget - n
    ensures n == 0 ==> left == budget - 1
  {
    budget - Min(Max(Min(budget, n), 1), budget)
  }

  /** The entry cut to its last `budget` parts. */
  function LastParts(e: Entry, budget: nat): Entry {
    e.(parts := e.parts[|e.parts| - Min(budget, |e.parts|)..])
  }

  /** The first segment takes its root's id when its root is outside the window. */
  function AsRoot(es: seq<Entry>): seq<Entry> {
    if es != [] && es[0].continuationOf.Some?
    then es[0 := es[0].(id := es[0].continuationOf.value, continuationOf := None)]
    else es
  }

  function OpeningTail(es: seq<Entry>, budget: nat): seq<Entry> {
    Join(AsRoot(TailOf(es, budget)))
  }

  method ReadOpeningTail(es: seq<Entry>, maxParts: nat) returns (out: seq<Entry>)
    ensures out == OpeningTail(es, maxParts)
  {
    var remaining: nat, i := maxParts, |es|;
    var tail: seq<Entry> := [];
    assert es[..|es|] == es;
    while i > 0 && remaining > 0
      invariant 0 <= i <= |es|
      invariant TailOf(es[..i], remaining) + tail == TailOf(es, maxParts)
    {
      var e := es[i - 1];
      var count := Min(remaining, |e.parts|);
      assert es[..i][..i - 1] == es[..i - 1];
      tail := [e.(parts := e.parts[|e.parts| - count..])] + tail;
      remaining := remaining - Min(Max(count, 1), remaining);
      i := i - 1;
    }
    assert TailOf(es[..i], remaining) == [] && [] + tail == tail;
    if tail != [] && tail[0].continuationOf.Some? {
      tail := tail[0 := tail[0].(id := tail[0].continuationOf.value, continuationOf := None)];
    }
    out := JoinContinuationEntries(tail);
  }

  lemma {:induction false} TailWithinBudget(es: seq<Entry>, budget: nat)
    ensures PartCount(TailOf(es, budget)) <= budget
  {
    if es != [] && budget > 0 {
      var e := es[|es| - 1];
      var left := Left(budget, |e.parts|);
      var rest := TailOf(es[..|es| - 1], left);
      TailWithinBudget(es[..|es| - 1], left);
      assert (rest + [LastParts(e, budget)])[..|rest|] == rest;
    }
  }

  lemma AsRootCounts(es: seq<Entry>)
    ensures PartsOf(AsRoot(es)) == PartsOf(es)
  {
    if es != [] {
      assert es[0].parts + [] == es[0].parts;
      PartsUpdate(es, 0, AsRoot(es)[0], []);
      assert AsRoot(es) == es[0 := AsRoot(es)[0]];
    }
  }

  /** The tail never holds more parts than asked for, whatever the document looks like. */
  lemma OpeningTailBounded(es: seq<Entry>, budget: nat)
    ensures PartCount(OpeningTail(es, budget)) <= budget
  {
    TailWithinBudget(es, budget);
    AsRootCounts(TailOf(es, budget));
    JoinKeepsParts(AsRoot(TailOf(es, budget)));
  }

  predicate Suffix<T(==)>(a: seq<T>, b: seq<T>) {
    |a| <= |b| && a == b[|b| - |a|..]
  }

  /** The window: whole entries from some point, the first perhaps cut to its last parts. */
  ghost predicate IsWindow(t: seq<Entry>, es: seq<Entry>) {
    && |t| <= |es|
    && (forall i :: 0 < i < |t| ==> t[i] == es[|es| - |t| + i])
    && (t != [] ==> t[0] == es[|es| - |t|].(parts := t[0].parts))
  }

  lemma {:induction false} TailIsWindow(es: seq<Entry>, budget: nat)
    ensures IsWindow(TailOf(es, budget), es)
    ensures Suffix(Stored(TailOf(es, budget)), Stored(es))
  {
    if es != [] && budget > 0 {
      var e, init := es[|es| - 1], es[..|es| - 1];
      var left := Left(budget, |e.parts|);
      TailIsWindow(init, left);
      assert es == init + [e];
      WindowStep(TailOf(init, left), init, e, budget);
    }
  }

  lemma WindowStep(rest: seq<Entry>, init: seq<Entry>, e: Entry, budget: nat)
    requires IsWindow(rest, init) && Suffix(Stored(rest), Stored(init))
    requires budget < |e.parts| ==> rest == []
    ensures IsWindow(rest + [LastParts(e, budget)], init + [e])
    ensures Suffix(Stored(rest + [LastParts(e, budget)]), Stored(init + [e]))
  {
    var last := LastParts(e, budget);
    if budget >= |e.parts| { WholeEntry(e, budget); }
    WindowSnoc(rest, init, last, e);
    StoredSnoc(rest, last);
    StoredSnoc(init, e);
    ShownSuffix(e, budget);
    SuffixConcat(Stored(rest), Stored(init), ShownAs(RootOf(last), last.parts), ShownAs(RootOf(e), e.parts));
  }

  lemma WindowSnoc(rest: seq<Entry>, init: seq<Entry>, last: Entry, e: Entry)
    requires IsWindow(rest, init) && last == e.(parts := last.parts) && (last == e || rest == [])
    ensures IsWindow(rest + [last], init + [e])
  {}

  lemma StoredSnoc(es: seq<Entry>, e: Entry)
    ensures Stored(es + [e]) == Stored(es) + ShownAs(RootOf(e), e.parts)
  {
    assert (es + [e])[..|es|] == es;
  }

  lemma WholeEntry(e: Entry, budget: nat)
    requires budget >= |e.parts|
    ensures LastParts(e, budget) == e
  {
    assert e.parts[0..] == e.parts;
  }

  lemma ShownSuffix(e: Entry, budget: nat)
    ensures var a, b := ShownAs(RootOf(e), LastParts(e, budget).parts), ShownAs(RootOf(e), e.parts);
            Suffix(a, b) && (budget >= |e.parts| ==> a == b)
  {}

  lemma SuffixConcat<T>(x: seq<T>, y: seq<T>, a: seq<T>, b: seq<T>)
    requires Suffix(x, y) && Suffix(a, b) && (a == b || x == [])
    ensures Suffix(x + a, y + b)
  {
    if x == [] {
      assert x + a == a;
      assert (y + b)[|y + b| - |a|..] == b[|b| - |a|..];
    } else {
      assert (y + b)[|y + b| - |x + b|..] == y[|y| - |x|..] + b;
    }
  }

  lemma StoredAsRoot(es: seq<Entry>)
    ensures Stored(AsRoot(es)) == Stored(es)
    decreases |es|
  {
    if |es| > 1 {
      assert AsRoot(es)[..|es| - 1] == AsRoot(es[..|es| - 1]);
      StoredAsRoot(es[..|es| - 1]);
    } else if es != [] {
      assert AsRoot(es)[..0] == es[..0] == [];
    }
  }

  lemma WindowGrouped(es: seq<Entry>, budget: nat)
    requires Grouped(es)
    ensures Grouped(AsRoot(TailOf(es, budget)))
  {
    TailIsWindow(es, budget);
    var t, r := TailOf(es, budget), AsRoot(TailOf(es, budget));
    forall i | 0 <= i < |t| ensures RootOf(r[i]) == RootOf(es[|es| - |t| + i]) {}
  }

  /** What first paint shows is a suffix of what the full transcript shows, part by part, under the
      same message ids. */
  lemma OpeningTailIsSuffix(es: seq<Entry>, budget: nat)
    requires Grouped(es)
    ensures Suffix(Flat(OpeningTail(es, budget)), Flat(Join(es)))
  {
    TailIsWindow(es, budget);
    WindowGrouped(es, budget);
    JoinShows(AsRoot(TailOf(es, budget)));
    JoinShows(es);
    StoredAsRoot(TailOf(es, budget));
  }

  /** What an entry costs the budget. */
  function Cost(es: seq<Entry>): nat {
    if es == [] then 0 else Cost(es[..|es| - 1]) + Max(|es[|es| - 1].parts|, 1)
  }

  lemma {:induction false} EnoughBudget(es: seq<Entry>, budget: nat)
    requires Cost(es) <= budget
    ensures TailOf(es, budget) == es
  {
    if es != [] {
      var init, e := es[..|es| - 1], es[|es| - 1];
      EnoughBudget(init, Left(budget, |e.parts|));
      WholeEntry(e, budget);
      assert TailOf(es, budget) == init + [e];
    }
  }

  /** With enough budget the opening tail is the full transcript. */
  lemma OpeningTailIsAll(es: seq<Entry>, budget: nat)
    requires Cost(es) <= budget && (es != [] ==> es[0].continuationOf.None?)
    ensures OpeningTail(es, budget) == Join(es)
  {
    EnoughBudget(es, budget);
  }

  /** The tail takes as much as the budget allows. */
  lemma {:induction false} TailIsFull(es: seq<Entry>, budget: nat)
    ensures Cost(TailOf(es, budget)) == Min(Cost(es), budget)
  {
    if es != [] && budget > 0 {
      var init, e := es[..|es| - 1], es[|es| - 1];
      var rest := TailOf(init, Left(budget, |e.parts|));
      TailIsFull(init, Left(budget, |e.parts|));
      assert (rest + [LastParts(e, budget)])[..|rest|] == rest;
    }
  }

  lemma {:induction false} CostIsCount(es: seq<Entry>)
    requires forall e :: e in es ==> e.parts != []
    ensures Cost(es) == PartCount(es)
  {
    if es != [] {
      assert es[|es| - 1] in es;
      CostIsCount(es[..|es| - 1]);
    }
  }

  lemma {:induction false} TailHasParts(es: seq<Entry>, budget: nat, e: Entry)
    requires (forall x :: x in es ==> x.parts != []) && e in TailOf(es, budget)
    ensures e.parts != []
  {
    var last := es[|es| - 1];
    assert last in es;
    if e != LastParts(last, budget) { TailHasParts(es[..|es| - 1], Left(budget, |last.parts|), e); }
  }

  /** When no entry is empty the tail holds exactly the parts asked for, or all there are. */
  lemma OpeningTailIsFull(es: seq<Entry>, budget: nat)
    requires forall e :: e in es ==> e.parts != []
    ensures PartCount(OpeningTail(es, budget)) == Min(PartCount(es), budget)
  {
    var t := TailOf(es, budget);
    forall e | e in t ensures e.parts != [] { TailHasParts(es, budget, e); }
    CostIsCount(t);
    CostIsCount(es);
    TailIsFull(es, budget);
    AsRootCounts(t);
    JoinKeepsParts(AsRoot(t));
  }
}
