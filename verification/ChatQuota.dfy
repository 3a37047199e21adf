/**
 The per-device push quota: a window opens with a device's first push and again with the first
 push more than 60 s later, and admits pushes while its two budgets last.
 */
module ChatQuota {
  import opened Wrappers

  const QUOTA_WINDOW_MS := 60_000
  const QUOTA_MAX_PUSHES := 300
  const QUOTA_MAX_BYTES := 8 * 1024 * 1024

  datatype Window = Window(since: int, pushes: nat, bytes: nat)

  datatype Push = Push(at: int, device: string, bytes: nat)

  function Key(device: string): string {
    if device == "" then "(unknown)" else device
  }

  /** Every device has a budget of its own, but unnamed devices share one, with a device of that name. */
  lemma KeysAreDevices(a: string, b: string)
    ensures Key(a) == Key(b) <==> a == b || ((a == "" || a == "(unknown)") && (b == "" || b == "(unknown)"))
  {}

  // ---------------------------------------------------------------------------
  // One push

  predicate Opens(w: Option<Window>, now: int) {
    w.None? || now - w.value.since > QUOTA_WINDOW_MS
  }

  /** Every attempt is charged, admitted or not. */
  function Charge(w: Option<Window>, now: int, bytes: nat): Window {
    if Opens(w, now) then Window(now, 1, bytes)
    else Window(w.value.since, w.value.pushes + 1, w.value.bytes + bytes)
  }

  predicate WithinBudget(w: Window) {
    w.pushes <= QUOTA_MAX_PUSHES && w.bytes <= QUOTA_MAX_BYTES
  }

  function WindowOf(quotas: map<string, Window>, key: string): Option<Window> {
    if key in quotas then Some(quotas[key]) else None
  }

  class QuotaGate {
    var quotas: map<string, Window>

    constructor ()
      ensures quotas == map[]
    {
      quotas := map[];
    }

    method AdmitQuota(now: int, device: string, bytes: nat) returns (ok: bool)
      modifies this
      ensures var w := Charge(WindowOf(old(quotas), Key(device)), now, bytes);
              quotas == old(quotas)[Key(device) := w] && ok == WithinBudget(w)
    {
      var key := Key(device);
      var window := WindowOf(quotas, key);
      if window.None? || now - window.value.since > QUOTA_WINDOW_MS {
        window := Some(Window(now, 0, 0));
      }
      var charged := Window(window.value.since, window.value.pushes + 1, window.value.bytes + bytes);
      quotas := quotas[key := charged];
      ok := charged.pushes <= QUOTA_MAX_PUSHES && charged.bytes <= QUOTA_MAX_BYTES;
    }
  }

  // ---------------------------------------------------------------------------
  // A run of pushes from all devices

  /** The pushes admitted under one key, in order. */
  function Admitted(quotas: map<string, Window>, ps: seq<Push>, key: string): seq<Push>
    decreases |ps|
  {
    if ps == [] then []
    else
      var p := ps[0];
      var w := Charge(WindowOf(quotas, Key(p.device)), p.at, p.bytes);
      (if Key(p.device) == key && WithinBudget(w) then [p] else []) + Admitted(quotas[Key(p.device) := w], ps[1..], key)
  }

  /** One device's run, alone. */
  function AdmittedAlone(w: Option<Window>, ps: seq<Push>): seq<Push>
    decreases |ps|
  {
    if ps == [] then []
    else
      var w' := Charge(w, ps[0].at, ps[0].bytes);
      (if WithinBudget(w') then [ps[0]] else []) + AdmittedAlone(Some(w'), ps[1..])
  }

  function Under(ps: seq<Push>, key: string): seq<Push> {
    if ps == [] then [] else (if Key(ps[0].device) == key then [ps[0]] else []) + Under(ps[1..], key)
  }

  /** Devices do not share a budget: what one is admitted does not depend on the others' pushes. */
  lemma {:induction false} DevicesAreSeparate(quotas: map<string, Window>, ps: seq<Push>, key: string)
    ensures Admitted(quotas, ps, key) == AdmittedAlone(WindowOf(quotas, key), Under(ps, key))
    decreases |ps|
  {
    if ps != [] {
      var p := ps[0];
      var k := Key(p.device);
      var quotas' := quotas[k := Charge(WindowOf(quotas, k), p.at, p.bytes)];
      DevicesAreSeparate(quotas', ps[1..], key);
      var rest := Under(ps[1..], key);
      if k == key {
        assert Under(ps, key) == [p] + rest && ([p] + rest)[1..] == rest;
      } else {
        assert WindowOf(quotas', key) == WindowOf(quotas, key);
        assert Under(ps, key) == [] + rest == rest;
      }
    }
  }

  /** Rejected pushes are charged too: after one, a device is rejected until a new window opens. */
  lemma RejectionSticks(w: Option<Window>, p: Push, q: Push)
    requires !WithinBudget(Charge(w, p.at, p.bytes)) && q.at - Charge(w, p.at, p.bytes).since <= QUOTA_WINDOW_MS
    ensures AdmittedAlone(w, [p, q]) == []
  {
    assert [p, q][1..] == [q] && [q][1..] == [];
    var w' := Charge(w, p.at, p.bytes);
    assert AdmittedAlone(Some(w'), [q]) == [] + AdmittedAlone(Some(Charge(Some(w'), q.at, q.bytes)), []);
  }

  // ---------------------------------------------------------------------------
  // The bound

  /** The clock never steps back. */
  ghost predicate Ordered(ps: seq<Push>) {
    forall i, j :: 0 <= i < j < |ps| ==> ps[i].at <= ps[j].at
  }

  predicate Inside(p: Push, a: int) {
    a <= p.at <= a + QUOTA_WINDOW_MS
  }

  function CountIn(ps: seq<Push>, a: int): nat {
    if ps == [] then 0 else (if Inside(ps[0], a) then 1 else 0) + CountIn(ps[1..], a)
  }

  function BytesIn(ps: seq<Push>, a: int): nat {
    if ps == [] then 0 else (if Inside(ps[0], a) then ps[0].bytes else 0) + BytesIn(ps[1..], a)
  }

  function PushesLeft(w: Window): nat {
    if w.pushes < QUOTA_MAX_PUSHES then QUOTA_MAX_PUSHES - w.pushes else 0
  }

  function BytesLeft(w: Window): nat {
    if w.bytes < QUOTA_MAX_BYTES then QUOTA_MAX_BYTES - w.bytes else 0
  }

  lemma AdmittedCons(w: Window, ps: seq<Push>, a: int)
    requires ps != []
    ensures var w' := Charge(Some(w), ps[0].at, ps[0].bytes);
            var mine := WithinBudget(w') && Inside(ps[0], a);
            && CountIn(AdmittedAlone(Some(w), ps), a) == (if mine then 1 else 0) + CountIn(AdmittedAlone(Some(w'), ps[1..]), a)
            && BytesIn(AdmittedAlone(Some(w), ps), a) == (if mine then ps[0].bytes else 0) + BytesIn(AdmittedAlone(Some(w'), ps[1..]), a)
  {
    var w' := Charge(Some(w), ps[0].at, ps[0].bytes);
    var rest := AdmittedAlone(Some(w'), ps[1..]);
    if WithinBudget(w') {
      assert ([ps[0]] + rest)[1..] == rest;
    } else {
      assert [] + rest == rest;
    }
  }

  lemma {:induction false} NoneAfter(w: Option<Window>, ps: seq<Push>, a: int)
    requires Ordered(ps) && (ps == [] || ps[0].at > a + QUOTA_WINDOW_MS)
    ensures CountIn(AdmittedAlone(w, ps), a) == 0 && BytesIn(AdmittedAlone(w, ps), a) == 0
    decreases |ps|
  {
    if ps != [] {
      var w' := Charge(w, ps[0].at, ps[0].bytes);
      var rest := AdmittedAlone(Some(w'), ps[1..]);
      NoneAfter(Some(w'), ps[1..], a);
      if WithinBudget(w') {
        assert ([ps[0]] + rest)[1..] == rest;
      } else {
        assert [] + rest == rest;
      }
    }
  }

  /** An interval that begins no later than the window sees nothing past this window. */
  lemma {:induction false} WithinOneWindow(w: Window, ps: seq<Push>, a: int)
    requires Ordered(ps) && a <= w.since
    ensures CountIn(AdmittedAlone(Some(w), ps), a) <= PushesLeft(w)
    ensures BytesIn(AdmittedAlone(Some(w), ps), a) <= BytesLeft(w)
    decreases |ps|
  {
    if ps != [] {
      if ps[0].at > a + QUOTA_WINDOW_MS {
        NoneAfter(Some(w), ps, a);
      } else {
        AdmittedCons(w, ps, a);
        WithinOneWindow(Charge(Some(w), ps[0].at, ps[0].bytes), ps[1..], a);
      }
    }
  }

  /** Once time has reached the interval, it sees the rest of this window and at most one more. */
  lemma {:induction false} WithinTwoWindows(w: Window, ps: seq<Push>, a: int)
    requires Ordered(ps) && (ps == [] || a <= ps[0].at)
    ensures CountIn(AdmittedAlone(Some(w), ps), a) <= PushesLeft(w) + QUOTA_MAX_PUSHES
    ensures BytesIn(AdmittedAlone(Some(w), ps), a) <= BytesLeft(w) + QUOTA_MAX_BYTES
    decreases |ps|
  {
    if ps != [] {
      AdmittedCons(w, ps, a);
      var w' := Charge(Some(w), ps[0].at, ps[0].bytes);
      if Opens(Some(w), ps[0].at) {
        WithinOneWindow(w', ps[1..], a);
      } else {
        WithinTwoWindows(w', ps[1..], a);
      }
    }
  }

  lemma {:induction false} FromOpenWindow(w: Window, ps: seq<Push>, a: int)
    requires Ordered(ps) && w.pushes >= 1
    ensures CountIn(AdmittedAlone(Some(w), ps), a) <= 2 * QUOTA_MAX_PUSHES - 1
    ensures BytesIn(AdmittedAlone(Some(w), ps), a) <= 2 * QUOTA_MAX_BYTES
    decreases |ps|
  {
    if ps != [] {
      if a <= ps[0].at {
        WithinTwoWindows(w, ps, a);
      } else {
        AdmittedCons(w, ps, a);
        FromOpenWindow(Charge(Some(w), ps[0].at, ps[0].bytes), ps[1..], a);
      }
    }
  }

  /** Whatever the devices push, any closed 60-second interval admits at most 599 pushes and 16 MiB
      per device. */
  lemma QuotaBound(ps: seq<Push>, key: string, a: int)
    requires Ordered(Under(ps, key))
    ensures CountIn(Admitted(map[], ps, key), a) <= 2 * QUOTA_MAX_PUSHES - 1
    ensures BytesIn(Admitted(map[], ps, key), a) <= 2 * QUOTA_MAX_BYTES
  {
    DevicesAreSeparate(map[], ps, key);
    var mine := Under(ps, key);
    if mine != [] {
      var p := mine[0];
      var w := Charge(None, p.at, p.bytes);
      var rest := AdmittedAlone(Some(w), mine[1..]);
      if WithinBudget(w) && Inside(p, a) {
        WithinOneWindow(w, mine[1..], a);
        assert ([p] + rest)[1..] == rest;
      } else {
        FromOpenWindow(w, mine[1..], a);
        assert WithinBudget(w) ==> ([p] + rest)[1..] == rest;
        assert [] + rest == rest;
      }
    }
  }

  // ---------------------------------------------------------------------------
  // Intervals within one budget

  /** No window opens after the start of the interval and within it. */
  predicate Quiet(w: Option<Window>, ps: seq<Push>, a: int)
    decreases |ps|
  {
    ps == [] ||
    (&& (Opens(w, ps[0].at) ==> ps[0].at <= a || ps[0].at > a + QUOTA_WINDOW_MS)
     && Quiet(Some(Charge(w, ps[0].at, ps[0].bytes)), ps[1..], a))
  }

  /** A window still open at the start of a quiet interval serves all of it. */
  lemma {:induction false} QuietWindow(w: Window, ps: seq<Push>, a: int)
    requires Ordered(ps) && Quiet(Some(w), ps, a) && !Opens(Some(w), a) && (ps == [] || a <= ps[0].at)
    ensures CountIn(AdmittedAlone(Some(w), ps), a) <= PushesLeft(w)
    ensures BytesIn(AdmittedAlone(Some(w), ps), a) <= BytesLeft(w)
    decreases |ps|
  {
    if ps != [] {
      if ps[0].at > a + QUOTA_WINDOW_MS {
        NoneAfter(Some(w), ps, a);
      } else {
        AdmittedCons(w, ps, a);
        QuietWindow(Charge(Some(w), ps[0].at, ps[0].bytes), ps[1..], a);
      }
    }
  }

  lemma {:induction false} QuietRun(w: Window, ps: seq<Push>, a: int)
    requires Ordered(ps) && Quiet(Some(w), ps, a)
    ensures CountIn(AdmittedAlone(Some(w), ps), a) <= QUOTA_MAX_PUSHES
    ensures BytesIn(AdmittedAlone(Some(w), ps), a) <= QUOTA_MAX_BYTES
    decreases |ps|
  {
    if ps != [] {
      var w' := Charge(Some(w), ps[0].at, ps[0].bytes);
      if ps[0].at > a + QUOTA_WINDOW_MS {
        NoneAfter(Some(w), ps, a);
      } else if ps[0].at < a {
        AdmittedCons(w, ps, a);
        QuietRun(w', ps[1..], a);
      } else if Opens(Some(w), ps[0].at) {
        AdmittedCons(w, ps, a);
        WithinOneWindow(w', ps[1..], a);
      } else {
        QuietWindow(w, ps, a);
      }
    }
  }

  /** An interval in which no window opens, other than at its start, admits at most 300 pushes and
      8 MiB per device. */
  lemma QuietIntervalBound(ps: seq<Push>, key: string, a: int)
    requires Ordered(Under(ps, key)) && Quiet(None, Under(ps, key), a)
    ensures CountIn(Admitted(map[], ps, key), a) <= QUOTA_MAX_PUSHES
    ensures BytesIn(Admitted(map[], ps, key), a) <= QUOTA_MAX_BYTES
  {
    DevicesAreSeparate(map[], ps, key);
    var mine := Under(ps, key);
    if mine != [] {
      var p := mine[0];
      var w := Charge(None, p.at, p.bytes);
      var rest := AdmittedAlone(Some(w), mine[1..]);
      if Inside(p, a) { WithinOneWindow(w, mine[1..], a); } else { QuietRun(w, mine[1..], a); }
      assert WithinBudget(w) ==> ([p] + rest)[1..] == rest;
      assert [] + rest == rest;
    }
  }

  // ---------------------------------------------------------------------------
  // The bound is reached

  function Burst(p: Push, n: nat): seq<Push> {
    if n == 0 then [] else [p] + Burst(p, n - 1)
  }

  lemma {:induction false} BurstSame(p: Push, n: nat)
    ensures |Burst(p, n)| == n && forall x :: x in Burst(p, n) ==> x == p
  {
    if n > 0 { BurstSame(p, n - 1); }
  }

  /** A burst inside a window's budget is wholly admitted. */
  lemma {:induction false} BurstAdmitted(w: Window, p: Push, n: nat, rest: seq<Push>, a: int)
    requires p.bytes == 0 && w.bytes == 0 && w.pushes + n <= QUOTA_MAX_PUSHES
    requires !Opens(Some(w), p.at) && Inside(p, a)
    ensures CountIn(AdmittedAlone(Some(w), Burst(p, n) + rest), a)
         == n + CountIn(AdmittedAlone(Some(Window(w.since, w.pushes + n, 0)), rest), a)
    decreases n
  {
    var ps := Burst(p, n) + rest;
    if n == 0 {
      assert ps == rest;
    } else {
      var w' := Window(w.since, w.pushes + 1, 0);
      assert ps[0] == p;
      assert ps[1..] == Burst(p, n - 1) + rest;
      AdmittedCons(w, ps, a);
      assert Charge(Some(w), p.at, p.bytes) == w';
      BurstAdmitted(w', p, n - 1, rest, a);
    }
  }

  lemma {:induction false} AllUnder(ps: seq<Push>, key: string)
    requires forall p :: p in ps ==> Key(p.device) == key
    ensures Under(ps, key) == ps
  {
    if ps != [] { AllUnder(ps[1..], key); }
  }

  /** One push at 0, 299 at 60 s and 300 just after. */
  function Worst(device: string): seq<Push> {
    [Push(0, device, 0)] + (Burst(Push(60_000, device, 0), 299) + Burst(Push(60_001, device, 0), 300))
  }

  /** Runs from one device, a push and two later bursts. */
  lemma StepsAreOrdered(a: Push, b: Push, m: nat, c: Push, n: nat, key: string)
    requires a.at <= b.at <= c.at && Key(a.device) == Key(b.device) == Key(c.device) == key
    ensures var ps := [a] + (Burst(b, m) + Burst(c, n)); Ordered(ps) && Under(ps, key) == ps
  {
    BurstSame(b, m);
    BurstSame(c, n);
    var bs, cs := Burst(b, m), Burst(c, n);
    var ps := [a] + (bs + cs);
    forall i | 0 <= i < |ps| ensures ps[i] == if i == 0 then a else if i <= m then b else c {
      if 0 < i <= m { assert bs[i - 1] in bs; }
      if m < i { assert cs[i - 1 - m] in cs; }
    }
    AllUnder(ps, key);
  }

  /** The bound is reached: the 599 later pushes all fall in one interval. */
  lemma QuotaBoundIsReached(device: string)
    ensures Ordered(Worst(device))
    ensures CountIn(Admitted(map[], Worst(device), Key(device)), 60_000) == 2 * QUOTA_MAX_PUSHES - 1
  {
    StepsAreOrdered(Push(0, device, 0), Push(60_000, device, 0), 299, Push(60_001, device, 0), 300, Key(device));
    var ps := Worst(device);
    DevicesAreSeparate(map[], ps, Key(device));
    var early, late, last := Push(0, device, 0), Push(60_000, device, 0), Push(60_001, device, 0);
    var tail := Burst(last, 300);
    var w := Window(0, 1, 0);
    assert ps[0] == early && ps[1..] == Burst(late, 299) + tail;
    var rest := AdmittedAlone(Some(w), ps[1..]);
    assert AdmittedAlone(None, ps) == [early] + rest && ([early] + rest)[1..] == rest;
    BurstAdmitted(w, late, 299, tail, 60_000);
    AdmittedCons(Window(0, 300, 0), tail, 60_000);
    assert tail == [last] + Burst(last, 299);
    assert tail[1..] == Burst(last, 299) + [];
    BurstAdmitted(Window(60_001, 1, 0), last, 299, [], 60_000);
  }

  const MIB := 1024 * 1024

  function Weight(p: Push, n: nat): nat {
    if n == 0 then 0 else p.bytes + Weight(p, n - 1)
  }

  lemma {:induction false} WeightIs(p: Push, n: nat)
    requires p.bytes == MIB
    ensures Weight(p, n) == n * MIB
  {
    if n > 0 { WeightIs(p, n - 1); }
  }

  lemma {:induction false} BurstBytes(w: Window, p: Push, n: nat, rest: seq<Push>, a: int, v: Window)
    requires v == Window(w.since, w.pushes + n, w.bytes + Weight(p, n)) && WithinBudget(v)
    requires !Opens(Some(w), p.at) && Inside(p, a)
    ensures BytesIn(AdmittedAlone(Some(w), Burst(p, n) + rest), a) == Weight(p, n) + BytesIn(AdmittedAlone(Some(v), rest), a)
    decreases n
  {
    var ps := Burst(p, n) + rest;
    if n == 0 {
      assert ps == rest;
    } else {
      var w' := Window(w.since, w.pushes + 1, w.bytes + p.bytes);
      assert ps[0] == p;
      assert ps[1..] == Burst(p, n - 1) + rest;
      AdmittedCons(w, ps, a);
      assert Charge(Some(w), p.at, p.bytes) == w';
      BurstBytes(w', p, n - 1, rest, a, v);
    }
  }

  /** An empty push at 0, 8 MiB at 60 s and 8 MiB just after. */
  function Heaviest(device: string): seq<Push> {
    [Push(0, device, 0)] + (Burst(Push(60_000, device, MIB), 8) + Burst(Push(60_001, device, MIB), 8))
  }

  /** The byte bound is reached too. */
  lemma ByteBoundIsReached(device: string)
    ensures Ordered(Heaviest(device))
    ensures BytesIn(Admitted(map[], Heaviest(device), Key(device)), 60_000) == 2 * QUOTA_MAX_BYTES
  {
    StepsAreOrdered(Push(0, device, 0), Push(60_000, device, MIB), 8, Push(60_001, device, MIB), 8, Key(device));
    var ps := Heaviest(device);
    DevicesAreSeparate(map[], ps, Key(device));
    var early, late, last := Push(0, device, 0), Push(60_000, device, MIB), Push(60_001, device, MIB);
    var tail := Burst(last, 8);
    var w := Window(0, 1, 0);
    assert ps[0] == early && ps[1..] == Burst(late, 8) + tail;
    var rest := AdmittedAlone(Some(w), ps[1..]);
    assert AdmittedAlone(None, ps) == [early] + rest && ([early] + rest)[1..] == rest;
    WeightIs(late, 8);
    WeightIs(last, 7);
    BurstBytes(w, late, 8, tail, 60_000, Window(0, 9, 8 * MIB));
    AdmittedCons(Window(0, 9, 8 * MIB), tail, 60_000);
    assert tail == [last] + Burst(last, 7);
    assert tail[1..] == Burst(last, 7) + [];
    BurstBytes(Window(60_001, 1, MIB), last, 7, [], 60_000, Window(60_001, 8, 8 * MIB));
  }
}
