/**
 Paging by truncation, apart from any encoding: rows have a cost, a page is what fits the cap, a
 client imports the rows that pass, and pulls again from where its cursor then is.
 */
module ChatPaging {
  import opened ChatLog
  import opened ChatProtocol

  const ROWS_BODY_CAP := 4 * 1024 * 1024

  // ---------------------------------------------------------------------------
  // Pages

  /** How many rows go out when `used` bytes are already spoken for. */
  function PageLen(rows: seq<Numbered>, cost: Numbered -> nat, used: nat): (k: nat)
    ensures k <= |rows|
  {
    if rows == [] || used + cost(rows[0]) > ROWS_BODY_CAP then 0
    else 1 + PageLen(rows[1..], cost, used + cost(rows[0]))
  }

  lemma PageLenStep(rows: seq<Numbered>, cost: Numbered -> nat, i: nat, used: nat)
    requires i < |rows|
    ensures PageLen(rows[i..], cost, used) ==
            if used + cost(rows[i]) > ROWS_BODY_CAP then 0 else 1 + PageLen(rows[i + 1..], cost, used + cost(rows[i]))
  {
    assert rows[i..][1..] == rows[i + 1..];
  }

  /** The rows one response carries. */
  function Page(rows: seq<Numbered>, cost: Numbered -> nat): seq<Numbered> {
    rows[..PageLen(rows, cost, 0)]
  }

  function Total(rows: seq<Numbered>, cost: Numbered -> nat): nat {
    if rows == [] then 0 else cost(rows[0]) + Total(rows[1..], cost)
  }

  lemma {:induction false} PageFills(rows: seq<Numbered>, cost: Numbered -> nat, used: nat)
    requires used <= ROWS_BODY_CAP
    ensures var k := PageLen(rows, cost, used);
            && used + Total(rows[..k], cost) <= ROWS_BODY_CAP
            && (k < |rows| ==> used + Total(rows[..k + 1], cost) > ROWS_BODY_CAP)
    decreases |rows|
  {
    if rows != [] {
      var k := PageLen(rows, cost, used);
      if k > 0 {
        PageFills(rows[1..], cost, used + cost(rows[0]));
        assert rows[..k][1..] == rows[1..][..k - 1];
      }
      if k < |rows| { assert rows[..k + 1][1..] == rows[1..][..k]; }
    }
  }

  /** A truncated page still carries a row exactly when the first row fits the cap. */
  lemma PageProgress(rows: seq<Numbered>, cost: Numbered -> nat)
    requires rows != []
    ensures PageLen(rows, cost, 0) > 0 <==> cost(rows[0]) <= ROWS_BODY_CAP
  {}

  lemma {:induction false} PageRowsFit(rows: seq<Numbered>, cost: Numbered -> nat, used: nat, n: Numbered)
    requires n in rows[..PageLen(rows, cost, used)]
    ensures cost(n) <= ROWS_BODY_CAP
    decreases |rows|
  {
    var k := PageLen(rows, cost, used);
    assert rows[..k] == [rows[0]] + rows[1..][..k - 1];
    if n != rows[0] { PageRowsFit(rows[1..], cost, used + cost(rows[0]), n); }
  }

  lemma {:induction false} PageShrinks(rows: seq<Numbered>, cost: Numbered -> nat, used: nat, more: nat)
    requires used <= more
    ensures PageLen(rows, cost, more) <= PageLen(rows, cost, used)
    decreases |rows|
  {
    if rows != [] { PageShrinks(rows[1..], cost, used + cost(rows[0]), more + cost(rows[0])); }
  }

  /** A page that starts later reaches at least as far. */
  lemma {:induction false} LaterPageReaches(rows: seq<Numbered>, cost: Numbered -> nat, used: nat, i: nat)
    requires i <= PageLen(rows, cost, used)
    ensures PageLen(rows, cost, used) <= i + PageLen(rows[i..], cost, 0)
    decreases i
  {
    if i == 0 {
      assert rows[0..] == rows;
      PageShrinks(rows, cost, 0, used);
    } else {
      LaterPageReaches(rows[1..], cost, used + cost(rows[0]), i - 1);
      assert rows[1..][i - 1..] == rows[i..];
    }
  }

  // ---------------------------------------------------------------------------
  // Rows that pass

  function Passing(rows: seq<Numbered>, ok: Numbered -> bool): seq<Numbered> {
    if rows == [] then [] else (if ok(rows[0]) then [rows[0]] else []) + Passing(rows[1..], ok)
  }

  lemma {:induction false} PassingMember(rows: seq<Numbered>, ok: Numbered -> bool, n: Numbered)
    ensures n in Passing(rows, ok) <==> n in rows && ok(n)
  {
    if rows != [] { PassingMember(rows[1..], ok, n); }
  }

  /** How many rows come before the first that does not pass. */
  function Lead(rows: seq<Numbered>, ok: Numbered -> bool): (m: nat)
    ensures m <= |rows|
    ensures forall i :: 0 <= i < m ==> ok(rows[i])
    ensures m < |rows| ==> !ok(rows[m])
  {
    if rows == [] || !ok(rows[0]) then 0 else 1 + Lead(rows[1..], ok)
  }

  lemma {:induction false} LeadAfter(rows: seq<Numbered>, ok: Numbered -> bool, t: nat)
    requires t <= Lead(rows, ok)
    ensures Lead(rows[t..], ok) == Lead(rows, ok) - t
    decreases t
  {
    if t == 0 {
      assert rows[0..] == rows;
    } else {
      LeadAfter(rows[1..], ok, t - 1);
      assert rows[1..][t - 1..] == rows[t..];
    }
  }

  lemma {:induction false} LeadWithin(rows: seq<Numbered>, ok: Numbered -> bool, k: nat)
    requires k <= |rows|
    ensures Lead(rows[..k], ok) == if Lead(rows, ok) < k then Lead(rows, ok) else k
    decreases k
  {
    if k > 0 && ok(rows[0]) {
      LeadWithin(rows[1..], ok, k - 1);
      assert rows[..k][1..] == rows[1..][..k - 1];
    }
  }

  lemma {:induction false} LeadPasses(rows: seq<Numbered>, ok: Numbered -> bool)
    ensures Passing(rows, ok) == rows[..Lead(rows, ok)] + Passing(rows[Lead(rows, ok)..], ok)
  {
    if rows != [] && ok(rows[0]) {
      var m := Lead(rows[1..], ok);
      LeadPasses(rows[1..], ok);
      assert rows[1..][m..] == rows[m + 1..] && rows[..m + 1] == [rows[0]] + rows[1..][..m];
    } else {
      assert rows[0..] == rows;
    }
  }

  // ---------------------------------------------------------------------------
  // The cursor

  /** The cursor after importing rows in order. */
  function AdvanceAll(cursor: nat, rows: seq<Numbered>): nat
    decreases |rows|
  {
    if rows == [] then cursor else AdvanceAll(Advance(cursor, rows[0].seqNo), rows[1..])
  }

  /** Rows with consecutive seqs after `s`. */
  ghost predicate Consecutive(rows: seq<Numbered>, s: nat) {
    forall i :: 0 <= i < |rows| ==> rows[i].seqNo == s + 1 + i
  }

  /** A gap holds the cursor. */
  lemma {:induction false} GapHolds(cursor: nat, rows: seq<Numbered>)
    requires forall n :: n in rows ==> n.seqNo > cursor + 1
    ensures AdvanceAll(cursor, rows) == cursor
  {
    if rows != [] {
      assert rows[0] in rows;
      GapHolds(cursor, rows[1..]);
    }
  }

  /** The cursor ends just before the first row that did not pass. */
  lemma {:induction false} CursorStopsAtLead(rows: seq<Numbered>, ok: Numbered -> bool, s: nat)
    requires Consecutive(rows, s)
    ensures AdvanceAll(s, Passing(rows, ok)) == s + Lead(rows, ok)
    decreases |rows|
  {
    if rows != [] {
      var rest := Passing(rows[1..], ok);
      if ok(rows[0]) {
        assert Consecutive(rows[1..], s + 1);
        CursorStopsAtLead(rows[1..], ok, s + 1);
        assert ([rows[0]] + rest)[1..] == rest;
      } else {
        assert [] + rest == rest;
        forall n | n in rest ensures n.seqNo > s + 1 {
          PassingMember(rows[1..], ok, n);
          var i :| 0 <= i < |rows[1..]| && rows[1..][i] == n;
          assert rows[i + 1].seqNo == s + 2 + i;
        }
        GapHolds(s, rest);
      }
    }
  }

  // ---------------------------------------------------------------------------
  // Repeated pulls

  datatype Pulled = Pulled(rows: seq<Numbered>, cursor: nat)

  /** Pull after pull, each from where the last left the cursor, until one leaves it in place: the
      rows imported, in order, and the final cursor. */
  function PullAll(pull: nat -> seq<Numbered>, cursor: nat, head: nat): Pulled
    decreases head - cursor
  {
    var rows := pull(cursor);
    var next := AdvanceAll(cursor, rows);
    if cursor < next <= head then
      var rest := PullAll(pull, next, head);
      Pulled(rows + rest.rows, rest.cursor)
    else Pulled(rows, next)
  }

  /** The same over the rows alone. */
  function DrainRows(rows: seq<Numbered>, cost: Numbered -> nat, ok: Numbered -> bool): seq<Numbered>
    decreases |rows|
  {
    var page := Page(rows, cost);
    var t := Lead(page, ok);
    if t == 0 then Passing(page, ok) else Passing(page, ok) + DrainRows(rows[t..], cost, ok)
  }

  /** Rows that pass fit a page. */
  ghost predicate Fits(rows: seq<Numbered>, cost: Numbered -> nat, ok: Numbered -> bool) {
    forall n :: n in rows && ok(n) ==> cost(n) <= ROWS_BODY_CAP
  }

  /** A page leads nowhere exactly when the next row does not pass, or there is none. */
  lemma PageLeads(rows: seq<Numbered>, cost: Numbered -> nat, ok: Numbered -> bool)
    requires Fits(rows, cost, ok)
    ensures Lead(Page(rows, cost), ok) == 0 <==> Lead(rows, ok) == 0
    ensures Lead(Page(rows, cost), ok) <= Lead(rows, ok)
  {
    LeadWithin(rows, ok, PageLen(rows, cost, 0));
    if rows != [] && ok(rows[0]) {
      assert rows[0] in rows;
      PageProgress(rows, cost);
    }
  }

  /** What arrives of `rows` as `got`: everything before the first row that does not pass, in order,
      and of the rest just what passes of the page that starts at that row. */
  ghost predicate Arrives(rows: seq<Numbered>, got: seq<Numbered>, cost: Numbered -> nat, ok: Numbered -> bool) {
    var m := Lead(rows, ok);
    && rows[..m] <= got
    && (m == |rows| ==> got == rows)
    && forall n :: n in got <==> n in rows[..m] || n in Passing(Page(rows[m..], cost), ok)
  }

  lemma StuckArrives(rows: seq<Numbered>, cost: Numbered -> nat, ok: Numbered -> bool)
    requires Lead(rows, ok) == 0
    ensures Arrives(rows, Passing(Page(rows, cost), ok), cost, ok)
  {
    assert rows[0..] == rows && rows[..0] == [];
  }

  /** A page read whole, then the rest. */
  lemma WholePageArrives(rows: seq<Numbered>, k: nat, rest: seq<Numbered>, cost: Numbered -> nat, ok: Numbered -> bool)
    requires k <= Lead(rows, ok) && Arrives(rows[k..], rest, cost, ok)
    ensures Arrives(rows, rows[..k] + rest, cost, ok)
  {
    var m, tail := Lead(rows, ok), rows[k..];
    LeadAfter(rows, ok, k);
    assert tail[m - k..] == rows[m..];
    assert rows[..m] == rows[..k] + tail[..m - k];
    if m == |rows| { assert rows == rows[..k] + tail; }
    forall n ensures n in rows[..k] + rest <==> n in rows[..m] || n in Passing(Page(rows[m..], cost), ok) {
      assert n in rows[..m] <==> n in rows[..k] || n in tail[..m - k];
    }
  }

  /** A page with a row in it that does not pass, then the pull that starts at that row. */
  lemma BrokenPageArrives(rows: seq<Numbered>, extra: seq<Numbered>, rest: seq<Numbered>, cost: Numbered -> nat, ok: Numbered -> bool)
    requires var m := Lead(rows, ok);
             && m < |rows| && Arrives(rows[m..], rest, cost, ok)
             && forall n :: n in extra ==> n in Passing(Page(rows[m..], cost), ok)
    ensures Arrives(rows, rows[..Lead(rows, ok)] + extra + rest, cost, ok)
  {
    var m := Lead(rows, ok);
    LeadAfter(rows, ok, m);
    var tail := rows[m..];
    assert tail[..0] == [] && tail[0..] == tail;
  }

  /** What is left of a page is within the page that starts there. */
  lemma RestOfPage(rows: seq<Numbered>, m: nat, cost: Numbered -> nat, ok: Numbered -> bool)
    requires m < PageLen(rows, cost, 0)
    ensures forall n :: n in Passing(Page(rows, cost)[m..], ok) ==> n in Passing(Page(rows[m..], cost), ok)
  {
    var k := PageLen(rows, cost, 0);
    LaterPageReaches(rows, cost, 0, m);
    var rest, next := Page(rows, cost)[m..], Page(rows[m..], cost);
    assert rest == rows[m..][..k - m];
    forall n | n in Passing(rest, ok) ensures n in Passing(next, ok) {
      PassingMember(rest, ok, n);
      var i :| 0 <= i < |rest| && rest[i] == n;
      assert next[i] == n;
      PassingMember(next, ok, n);
    }
  }

  lemma NextPageArrives(rows: seq<Numbered>, t: nat, rest: seq<Numbered>, cost: Numbered -> nat, ok: Numbered -> bool)
    requires t == Lead(Page(rows, cost), ok) && Arrives(rows[t..], rest, cost, ok)
    ensures Arrives(rows, Passing(Page(rows, cost), ok) + rest, cost, ok)
  {
    var page, k, m := Page(rows, cost), PageLen(rows, cost, 0), Lead(rows, ok);
    LeadWithin(rows, ok, k);
    LeadPasses(page, ok);
    assert page[..t] == rows[..t];
    if m < k {
      RestOfPage(rows, m, cost, ok);
      BrokenPageArrives(rows, Passing(page[t..], ok), rest, cost, ok);
    } else {
      assert page[t..] == [];
      WholePageArrives(rows, k, rest, cost, ok);
    }
  }

  lemma {:induction false} DrainRowsArrives(rows: seq<Numbered>, cost: Numbered -> nat, ok: Numbered -> bool)
    requires Fits(rows, cost, ok)
    ensures Arrives(rows, DrainRows(rows, cost, ok), cost, ok)
    decreases |rows|
  {
    var t := Lead(Page(rows, cost), ok);
    PageLeads(rows, cost, ok);
    if t == 0 {
      StuckArrives(rows, cost, ok);
    } else {
      assert forall n :: n in rows[t..] ==> n in rows;
      DrainRowsArrives(rows[t..], cost, ok);
      NextPageArrives(rows, t, DrainRows(rows[t..], cost, ok), cost, ok);
    }
  }

  lemma PullAllStep(pull: nat -> seq<Numbered>, cursor: nat, head: nat, next: nat)
    requires next == AdvanceAll(cursor, pull(cursor)) && cursor <= next <= head
    ensures PullAll(pull, cursor, head) ==
            if next == cursor then Pulled(pull(cursor), cursor)
            else Pulled(pull(cursor) + PullAll(pull, next, head).rows, PullAll(pull, next, head).cursor)
  {}

  lemma ConsecutivePage(rows: seq<Numbered>, s: nat, cost: Numbered -> nat, ok: Numbered -> bool)
    requires Consecutive(rows, s)
    ensures AdvanceAll(s, Passing(Page(rows, cost), ok)) == s + Lead(Page(rows, cost), ok)
  {
    CursorStopsAtLead(Page(rows, cost), ok, s);
  }

  /** One pull that brings what passes of its page, then the rest. */
  lemma PullStep(pull: nat -> seq<Numbered>, rows: seq<Numbered>, s: nat, head: nat, m: nat, cost: Numbered -> nat, ok: Numbered -> bool)
    requires s + |rows| <= head && Consecutive(rows, s) && Fits(rows, cost, ok)
    requires pull(s) == Passing(Page(rows, cost), ok) && m == Lead(Page(rows, cost), ok)
    requires m > 0 ==> PullAll(pull, s + m, head) == Pulled(DrainRows(rows[m..], cost, ok), s + m + Lead(rows[m..], ok))
    ensures PullAll(pull, s, head) == Pulled(DrainRows(rows, cost, ok), s + Lead(rows, ok))
  {
    ConsecutivePage(rows, s, cost, ok);
    PullAllStep(pull, s, head, s + m);
    PageLeads(rows, cost, ok);
    if m > 0 { LeadAfter(rows, ok, m); }
  }

  function At(pull: nat -> seq<Numbered>, s: nat, i: nat): seq<Numbered> {
    pull(s + i)
  }

  /** Each pull brings what passes of the page at its cursor. */
  ghost predicate Serves(pull: nat -> seq<Numbered>, rows: seq<Numbered>, s: nat, cost: Numbered -> nat, ok: Numbered -> bool) {
    forall i: nat {:trigger At(pull, s, i)} :: i <= |rows| ==> At(pull, s, i) == Passing(Page(rows[i..], cost), ok)
  }

  lemma SuffixIsFine(rows: seq<Numbered>, s: nat, t: nat, cost: Numbered -> nat, ok: Numbered -> bool)
    requires t <= |rows| && Consecutive(rows, s) && Fits(rows, cost, ok)
    ensures Consecutive(rows[t..], s + t) && Fits(rows[t..], cost, ok)
  {
    assert forall n :: n in rows[t..] ==> n in rows;
  }

  lemma SuffixServed(pull: nat -> seq<Numbered>, rows: seq<Numbered>, s: nat, t: nat, cost: Numbered -> nat, ok: Numbered -> bool)
    requires t <= |rows| && Serves(pull, rows, s, cost, ok)
    ensures Serves(pull, rows[t..], s + t, cost, ok)
    ensures pull(s + t) == Passing(Page(rows[t..], cost), ok)
  {
    assert At(pull, s, t) == Passing(Page(rows[t..], cost), ok);
    forall i: nat | i <= |rows[t..]| ensures At(pull, s + t, i) == Passing(Page(rows[t..][i..], cost), ok) {
      assert At(pull, s + t, i) == At(pull, s, t + i);
      assert rows[t..][i..] == rows[t + i..];
    }
  }

  lemma {:induction false} PullAllDrains(pull: nat -> seq<Numbered>, rows: seq<Numbered>, s: nat, head: nat, cost: Numbered -> nat, ok: Numbered -> bool)
    requires s + |rows| <= head && Consecutive(rows, s) && Fits(rows, cost, ok)
    requires Serves(pull, rows, s, cost, ok)
    ensures PullAll(pull, s, head) == Pulled(DrainRows(rows, cost, ok), s + Lead(rows, ok))
    decreases |rows|
  {
    var m := Lead(Page(rows, cost), ok);
    SuffixServed(pull, rows, s, 0, cost, ok);
    assert rows[0..] == rows;
    if m > 0 {
      SuffixServed(pull, rows, s, m, cost, ok);
      SuffixIsFine(rows, s, m, cost, ok);
      PullAllDrains(pull, rows[m..], s + m, head, cost, ok);
    }
    PullStep(pull, rows, s, head, m, cost, ok);
  }

  /** What repeated pulls bring, and where the cursor ends. */
  lemma PullsArrive(pull: nat -> seq<Numbered>, rows: seq<Numbered>, s: nat, head: nat, cost: Numbered -> nat, ok: Numbered -> bool)
    requires s + |rows| <= head && Consecutive(rows, s) && Fits(rows, cost, ok) && Serves(pull, rows, s, cost, ok)
    ensures Arrives(rows, PullAll(pull, s, head).rows, cost, ok)
    ensures PullAll(pull, s, head).cursor == s + Lead(rows, ok)
  {
    PullAllDrains(pull, rows, s, head, cost, ok);
    DrainRowsArrives(rows, cost, ok);
  }
}
