/**
 Hybrid logical clocks.

 A clock is the string `{ms:013}-{counter:06}-{device}`; two clocks are compared
 as strings.  This module gives the string order, the encoding, and the monotonic
 source that stamps local writes and names batches.
 */
module Hlc {
  import opened Wrappers

  type Clock = string

  // ---------------------------------------------------------------------------
  // Lexicographic order of strings

  predicate Less(a: string, b: string) {
    if b == "" then false
    else if a == "" then true
    else if a[0] != b[0] then a[0] < b[0]
    else Less(a[1..], b[1..])
  }

  /** `a` is strictly newer than `b`; a field that was never written loses to any clock. */
  predicate Newer(a: Clock, b: Option<Clock>) {
    b.None? || Less(b.value, a)
  }

  lemma {:induction false} LessIrreflexive(a: string)
    ensures !Less(a, a)
  {
    if a != "" { LessIrreflexive(a[1..]); }
  }

  lemma {:induction false} LessTransitive(a: string, b: string, c: string)
    requires Less(a, b) && Less(b, c)
    ensures Less(a, c)
  {
    if a != "" && a[0] == b[0] == c[0] { LessTransitive(a[1..], b[1..], c[1..]); }
  }

  lemma {:induction false} LessTotal(a: string, b: string)
    ensures Less(a, b) || a == b || Less(b, a)
  {
    if a != "" && b != "" && a[0] == b[0] {
      LessTotal(a[1..], b[1..]);
      assert a == [a[0]] + a[1..] && b == [b[0]] + b[1..];
    }
  }

  /** The string order is a strict total order. */
  lemma LessIsStrictTotalOrder()
    ensures forall a: string :: !Less(a, a)
    ensures forall a: string, b: string, c: string :: Less(a, b) && Less(b, c) ==> Less(a, c)
    ensures forall a: string, b: string {:trigger Less(a, b)} :: Less(a, b) || a == b || Less(b, a)
  {
    forall a: string { LessIrreflexive(a); }
    forall a: string, b: string, c: string | Less(a, b) && Less(b, c) { LessTransitive(a, b, c); }
    forall a: string, b: string { LessTotal(a, b); }
  }

  lemma {:induction false} LessAfterCommonPrefix(p: string, a: string, b: string)
    ensures Less(p + a, p + b) <==> Less(a, b)
  {
    if p == "" {
      assert p + a == a && p + b == b;
    } else {
      assert (p + a)[1..] == p[1..] + a && (p + b)[1..] == p[1..] + b;
      LessAfterCommonPrefix(p[1..], a, b);
    }
  }

  // ---------------------------------------------------------------------------
  // Zero-padded decimal numbers

  function Pow10(w: nat): (r: nat)
    ensures r >= 1
  {
    if w == 0 then 1 else 10 * Pow10(w - 1)
  }

  function Digit(d: nat): char
    requires d < 10
  {
    '0' + d as char
  }

  /** Decimal digits of `n`, no padding. */
  function Decimal(n: nat): (s: string)
    ensures s != ""
    ensures '-' !in s
  {
    if n < 10 then [Digit(n)] else Decimal(n / 10) + [Digit(n % 10)]
  }

  function Zeros(n: nat): (s: string)
    ensures |s| == n && '-' !in s
  {
    if n == 0 then "" else "0" + Zeros(n - 1)
  }

  /** `{n:0w}`: padded to at least `w` characters, wider when the number is. */
  function Padded(n: nat, w: nat): (s: string)
    ensures '-' !in s
  {
    var d := Decimal(n);
    if |d| < w then Zeros(w - |d|) + d else d
  }

  /** Exactly `w` digits, least significant last. */
  function Fixed(n: nat, w: nat): (s: string)
    ensures |s| == w
  {
    if w == 0 then "" else Fixed(n / 10, w - 1) + [Digit(n % 10)]
  }

  lemma {:induction false} FixedOfZero(w: nat)
    ensures Fixed(0, w) == Zeros(w)
  {
    if w > 0 {
      FixedOfZero(w - 1);
      ZerosSnoc(w - 1);
    }
  }

  lemma {:induction false} ZerosSnoc(w: nat)
    ensures Zeros(w) + "0" == "0" + Zeros(w)
  {
    if w > 0 {
      ZerosSnoc(w - 1);
      assert "0" + Zeros(w - 1) + "0" == "0" + (Zeros(w - 1) + "0");
    }
  }

  lemma {:induction false} PaddedIsFixed(n: nat, w: nat)
    requires w >= 1 && n < Pow10(w)
    ensures |Decimal(n)| <= w
    ensures Padded(n, w) == Fixed(n, w)
  {
    if n < 10 {
      FixedOfZero(w - 1);
      assert n / 10 == 0 && n % 10 == n;
    } else {
      assert w >= 2 by { assert Pow10(1) == 10 * Pow10(0); }
      assert n / 10 < Pow10(w - 1);
      PaddedIsFixed(n / 10, w - 1);
    }
  }

  /** Fixed-width numbers followed by anything compare numerically first. */
  lemma {:induction false} FixedOrder(a: nat, b: nat, w: nat, x: string, y: string)
    requires a < Pow10(w) && b < Pow10(w)
    ensures Less(Fixed(a, w) + x, Fixed(b, w) + y) <==> a < b || (a == b && Less(x, y))
  {
    if w == 0 {
      assert Fixed(a, 0) + x == x && Fixed(b, 0) + y == y;
    } else {
      var x', y' := [Digit(a % 10)] + x, [Digit(b % 10)] + y;
      assert Fixed(a, w) + x == Fixed(a / 10, w - 1) + x';
      assert Fixed(b, w) + y == Fixed(b / 10, w - 1) + y';
      FixedOrder(a / 10, b / 10, w - 1, x', y');
      assert x'[1..] == x && y'[1..] == y;
    }
  }

  // ---------------------------------------------------------------------------
  // Encoding

  datatype Stamp = Stamp(ms: nat, counter: nat)

  predicate StampLess(a: Stamp, b: Stamp) {
    a.ms < b.ms || (a.ms == b.ms && a.counter < b.counter)
  }

  const MAX_COUNTER := 999_999

  /** Milliseconds that fit the 13 digits of the encoding. */
  predicate InRange(s: Stamp) {
    s.ms < Pow10(13) && s.counter <= MAX_COUNTER
  }

  function Encode(s: Stamp, device: string): Clock {
    Padded(s.ms, 13) + "-" + Padded(s.counter, 6) + "-" + device
  }

  lemma Pow10Six()
    ensures Pow10(6) == MAX_COUNTER + 1
  {
    assert Pow10(3) == 1000 by { assert Pow10(1) == 10; }
    assert Pow10(5) == 100_000;
  }

  /** Two padded numbers and a name compare as the numbers do, whatever the widths. */
  lemma PaddedOrder(a: Stamp, d: string, b: Stamp, e: string, w: nat, v: nat)
    requires w >= 1 && v >= 1
    requires a.ms < Pow10(w) && b.ms < Pow10(w) && a.counter < Pow10(v) && b.counter < Pow10(v)
    ensures Less(Padded(a.ms, w) + "-" + Padded(a.counter, v) + "-" + d, Padded(b.ms, w) + "-" + Padded(b.counter, v) + "-" + e)
       <==> StampLess(a, b) || (a == b && Less(d, e))
  {
    PaddedIsFixed(a.ms, w); PaddedIsFixed(b.ms, w);
    PaddedIsFixed(a.counter, v); PaddedIsFixed(b.counter, v);
    var p, q := Fixed(a.counter, v) + ("-" + d), Fixed(b.counter, v) + ("-" + e);
    assert Fixed(a.ms, w) + "-" + Fixed(a.counter, v) + "-" + d == Fixed(a.ms, w) + ("-" + p);
    assert Fixed(b.ms, w) + "-" + Fixed(b.counter, v) + "-" + e == Fixed(b.ms, w) + ("-" + q);
    FixedOrder(a.ms, b.ms, w, "-" + p, "-" + q);
    LessAfterCommonPrefix("-", p, q);
    FixedOrder(a.counter, b.counter, v, "-" + d, "-" + e);
    LessAfterCommonPrefix("-", d, e);
  }

  /** Below 10^13 ms, encoded clocks compare as (ms, counter, device). */
  lemma EncodeOrder(a: Stamp, d: string, b: Stamp, e: string)
    requires InRange(a) && InRange(b)
    ensures Less(Encode(a, d), Encode(b, e)) <==> StampLess(a, b) || (a == b && Less(d, e))
  {
    Pow10Six();
    PaddedOrder(a, d, b, e, 13, 6);
  }

  lemma {:induction false} DecimalBound(n: nat)
    ensures n < Pow10(|Decimal(n)|)
  {
    if n >= 10 { DecimalBound(n / 10); } else { assert Pow10(1) == 10 * Pow10(0); }
  }

  lemma {:induction false} Pow10Grows(w: nat, v: nat)
    requires w <= v
    ensures Pow10(w) <= Pow10(v)
  {
    if w < v { Pow10Grows(w, v - 1); }
  }

  /** Padding to the width already printed changes nothing, and the number fits it. */
  lemma PrintedWidth(n: nat, w: nat, v: nat)
    requires w >= 1 && v == |Padded(n, w)|
    ensures v >= w && Padded(n, v) == Padded(n, w) && n < Pow10(v)
  {
    DecimalBound(n);
    Pow10Grows(|Decimal(n)|, v);
  }

  /** Past that too, clocks that print as many millisecond digits compare as (ms, counter, device). */
  lemma EqualWidthOrder(a: Stamp, d: string, b: Stamp, e: string)
    requires a.counter <= MAX_COUNTER && b.counter <= MAX_COUNTER && |Padded(a.ms, 13)| == |Padded(b.ms, 13)|
    ensures Less(Encode(a, d), Encode(b, e)) <==> StampLess(a, b) || (a == b && Less(d, e))
  {
    var v := |Padded(a.ms, 13)|;
    PrintedWidth(a.ms, 13, v);
    PrintedWidth(b.ms, 13, v);
    Pow10Six();
    PaddedOrder(a, d, b, e, v, 6);
  }

  /** A number without its last `k` digits. */
  function Leading(n: nat, k: nat): nat {
    if k == 0 then n else Leading(n / 10, k - 1)
  }

  lemma {:induction false} FixedSplit(n: nat, w: nat, k: nat)
    requires k <= w
    ensures Fixed(n, w) == Fixed(Leading(n, k), w - k) + Fixed(n, k)
    decreases k
  {
    if k > 0 {
      FixedSplit(n / 10, w - 1, k - 1);
      var high, low, last := Fixed(Leading(n, k), w - k), Fixed(n / 10, k - 1), [Digit(n % 10)];
      assert high + low + last == high + (low + last);
    }
  }

  lemma {:induction false} LeadingFits(n: nat, w: nat, k: nat)
    requires k <= w && n < Pow10(w)
    ensures Leading(n, k) < Pow10(w - k)
    decreases k
  {
    if k > 0 {
      assert n / 10 < Pow10(w - 1);
      LeadingFits(n / 10, w - 1, k - 1);
    }
  }

  lemma {:induction false} FixedStartsWithDigit(n: nat, k: nat)
    requires k >= 1
    ensures Less("-", Fixed(n, k)) && '-' < Fixed(n, k)[0]
  {
    if k > 1 {
      FixedStartsWithDigit(n / 10, k - 1);
    }
  }

  /** The shorter number against the longer one. */
  lemma AcrossWidths(m: nat, n: nat, w: nat, v: nat, x: string, y: string)
    requires w < v && m < Pow10(w) && n < Pow10(v)
    ensures Less(Fixed(m, w) + ("-" + x), Fixed(n, v) + y) <==> m <= Leading(n, v - w)
  {
    var k := v - w;
    var q, low := Leading(n, k), Fixed(n, k);
    FixedSplit(n, v, k);
    LeadingFits(n, v, k);
    assert Fixed(n, v) + y == Fixed(q, w) + (low + y);
    FixedOrder(m, q, w, "-" + x, low + y);
    FixedStartsWithDigit(n, k);
    assert (low + y)[0] == low[0];
  }

  /** Between clocks that print different widths, the one with fewer digits, always the earlier,
      compares as earlier exactly when it does not exceed the leading digits of the other. */
  lemma UnequalWidthOrder(a: Stamp, d: string, b: Stamp, e: string)
    requires a.counter <= MAX_COUNTER && b.counter <= MAX_COUNTER && |Padded(a.ms, 13)| < |Padded(b.ms, 13)|
    ensures a.ms < b.ms
    ensures Less(Encode(a, d), Encode(b, e)) <==> a.ms <= Leading(b.ms, |Padded(b.ms, 13)| - |Padded(a.ms, 13)|)
  {
    var w, v := |Padded(a.ms, 13)|, |Padded(b.ms, 13)|;
    PrintedWidth(a.ms, 13, w);
    PrintedWidth(b.ms, 13, v);
    PaddedIsFixed(a.ms, w);
    PaddedIsFixed(b.ms, v);
    WiderIsLater(a.ms, b.ms, 13);
    WidthOrder(a.ms, b.ms, w, v, Padded(a.counter, 6), d, Padded(b.counter, 6), e);
  }

  lemma WidthOrder(m: nat, n: nat, w: nat, v: nat, x: string, d: string, y: string, e: string)
    requires w < v && m < Pow10(w) && n < Pow10(v)
    ensures Less(Fixed(m, w) + "-" + x + "-" + d, Fixed(n, v) + "-" + y + "-" + e) <==> m <= Leading(n, v - w)
  {
    assert Fixed(m, w) + "-" + x + "-" + d == Fixed(m, w) + ("-" + (x + "-" + d));
    assert Fixed(n, v) + "-" + y + "-" + e == Fixed(n, v) + ("-" + y + "-" + e);
    AcrossWidths(m, n, w, v, x + "-" + d, "-" + y + "-" + e);
  }

  lemma {:induction false} DecimalAtLeast(n: nat)
    ensures n >= 10 ==> Pow10(|Decimal(n)| - 1) <= n
  {
    if n >= 10 {
      if n >= 100 { DecimalAtLeast(n / 10); } else { assert |Decimal(n)| == 2 && Pow10(1) == 10 * Pow10(0); }
    }
  }

  lemma WiderIsLater(m: nat, n: nat, w: nat)
    requires w >= 1 && |Padded(m, w)| < |Padded(n, w)|
    ensures m < n
  {
    var v := |Padded(n, w)|;
    PrintedWidth(m, w, |Padded(m, w)|);
    Pow10Grows(|Padded(m, w)|, v - 1);
    assert v == |Decimal(n)| && v >= 2;
    DecimalAtLeast(n);
  }

  /** At 10^13 ms the padding no longer lines the digits up and the order inverts. */
  lemma EncodeOrderFailsPastThirteenDigits(a: Stamp, b: Stamp, d: string)
    requires a.ms + 1 == b.ms == Pow10(13)
    ensures StampLess(a, b) && Less(Encode(b, d), Encode(a, d))
  {
    OverflowInverts(a.ms, b.ms, 13, Padded(a.counter, 6), Padded(b.counter, 6), d);
  }

  lemma OverflowInverts(m: nat, n: nat, w: nat, x: string, y: string, d: string)
    requires w >= 1 && m + 1 == n == Pow10(w)
    ensures Less(Padded(n, w) + "-" + y + "-" + d, Padded(m, w) + "-" + x + "-" + d)
  {
    FirstDigit(m, w - 1); FirstDigit(n, w);
    DecimalLength(m, w - 1); DecimalLength(n, w);
    var s, t := Padded(n, w) + "-" + y + "-" + d, Padded(m, w) + "-" + x + "-" + d;
    assert s[0] == '1' && t[0] == '9';
  }

  lemma {:induction false} DecimalLength(n: nat, k: nat)
    requires Pow10(k) <= n < Pow10(k + 1)
    ensures |Decimal(n)| == k + 1
  {
    if k > 0 { DecimalLength(n / 10, k - 1); }
  }

  lemma {:induction false} FirstDigit(n: nat, k: nat)
    requires Pow10(k) <= n < Pow10(k + 1)
    ensures n < 2 * Pow10(k) ==> Decimal(n)[0] == '1'
    ensures 9 * Pow10(k) <= n ==> Decimal(n)[0] == '9'
  {
    if k > 0 {
      FirstDigit(n / 10, k - 1);
    }
  }

  /** A clock against the prefix that a number and the separator make. */
  lemma EncodeBefore(m: nat, n: nat, w: nat, x: string, d: string)
    requires w >= 1 && m < Pow10(w) && n < Pow10(w)
    ensures Less(Padded(m, w) + "-" + x + "-" + d, Padded(n, w) + "-") <==> m < n
  {
    PaddedIsFixed(m, w);
    PaddedIsFixed(n, w);
    var tail := x + "-" + d;
    assert Fixed(m, w) + "-" + x + "-" + d == Fixed(m, w) + ("-" + tail);
    FixedOrder(m, n, w, "-" + tail, "-");
    assert ("-" + tail)[1..] == tail && "-"[1..] == "";
  }

  // Injectivity holds without any bound: the digits never contain the separator.

  lemma {:induction false} SplitAtDash(p: string, q: string, x: string, y: string)
    requires '-' !in p && '-' !in q
    requires p + "-" + x == q + "-" + y
    ensures p == q && x == y
  {
    var s, t := p + "-" + x, q + "-" + y;
    if p == "" || q == "" {
      assert p == q == "" by { assert s[0] == t[0]; }
      assert s[1..] == x && t[1..] == y;
    } else {
      assert s[0] == p[0] && t[0] == q[0];
      assert s[1..] == p[1..] + "-" + x && t[1..] == q[1..] + "-" + y;
      SplitAtDash(p[1..], q[1..], x, y);
      assert p == [p[0]] + p[1..] && q == [q[0]] + q[1..];
    }
  }

  function Value(s: string): int {
    if s == "" then 0 else 10 * Value(s[..|s| - 1]) + (s[|s| - 1] as int - '0' as int)
  }

  lemma {:induction false} ValueOfDecimal(n: nat)
    ensures Value(Decimal(n)) == n
  {
    if n >= 10 {
      ValueOfDecimal(n / 10);
      assert Decimal(n)[..|Decimal(n)| - 1] == Decimal(n / 10);
    } else {
      assert [Digit(n)][..0] == "";
    }
  }

  lemma {:induction false} ValueIgnoresZeros(k: nat, s: string)
    ensures Value(Zeros(k) + s) == Value(s)
    decreases |s|, k
  {
    var z := Zeros(k);
    if s == "" {
      assert z + s == z;
      if k > 0 {
        ZerosSnoc(k - 1);
        assert z[..|z| - 1] == Zeros(k - 1) && z[|z| - 1] == '0' by { assert z == Zeros(k - 1) + "0"; }
        ValueIgnoresZeros(k - 1, "");
        assert Zeros(k - 1) + "" == Zeros(k - 1);
      }
    } else {
      ValueIgnoresZeros(k, s[..|s| - 1]);
      assert (z + s)[..|z + s| - 1] == z + s[..|s| - 1];
    }
  }

  lemma ValueOfPadded(n: nat, w: nat)
    ensures Value(Padded(n, w)) == n
  {
    var d := Decimal(n);
    ValueOfDecimal(n);
    if |d| < w { ValueIgnoresZeros(w - |d|, d); }
  }

  lemma EncodeInjective(a: Stamp, d: string, b: Stamp, e: string)
    requires Encode(a, d) == Encode(b, e)
    ensures a == b && d == e
  {
    var x, y := Padded(a.counter, 6) + "-" + d, Padded(b.counter, 6) + "-" + e;
    assert Encode(a, d) == Padded(a.ms, 13) + "-" + x && Encode(b, e) == Padded(b.ms, 13) + "-" + y;
    SplitAtDash(Padded(a.ms, 13), Padded(b.ms, 13), x, y);
    SplitAtDash(Padded(a.counter, 6), Padded(b.counter, 6), d, e);
    ValueOfPadded(a.ms, 13); ValueOfPadded(b.ms, 13);
    ValueOfPadded(a.counter, 6); ValueOfPadded(b.counter, 6);
  }

  // ---------------------------------------------------------------------------
  // The monotonic source

  /** One tick of the source on a wall-clock reading, which may have gone backwards. */
  function Tick(s: Stamp, now: int): (t: Stamp)
    requires s.counter <= MAX_COUNTER
    ensures StampLess(s, t) && t.ms >= now
    ensures t.counter <= MAX_COUNTER
  {
    if now > s.ms then Stamp(now, 0)
    else if s.counter + 1 > MAX_COUNTER then Stamp(s.ms + 1, 0)
    else Stamp(s.ms, s.counter + 1)
  }

  /** A tick is the earliest stamp that is later than the last and not behind the wall clock. */
  lemma TickIsLeast(s: Stamp, now: int, t: Stamp)
    requires s.counter <= MAX_COUNTER && t.counter <= MAX_COUNTER
    requires StampLess(s, t) && t.ms >= now
    ensures Tick(s, now) == t || StampLess(Tick(s, now), t)
  {}

  /** All stamps emitted on a run of readings. */
  function Ticks(s: Stamp, nows: seq<int>): (ts: seq<Stamp>)
    requires s.counter <= MAX_COUNTER
    ensures |ts| == |nows|
    decreases |nows|
  {
    if nows == [] then [] else
      var t := Tick(s, nows[0]);
      [t] + Ticks(t, nows[1..])
  }

  lemma {:induction false} TicksIncrease(s: Stamp, nows: seq<int>, i: nat, j: nat)
    requires s.counter <= MAX_COUNTER
    requires i < j < |nows|
    ensures StampLess(s, Ticks(s, nows)[i])
    ensures StampLess(Ticks(s, nows)[i], Ticks(s, nows)[j])
    ensures Ticks(s, nows)[j].counter <= MAX_COUNTER
    decreases |nows|
  {
    var t := Tick(s, nows[0]);
    if i > 0 {
      TicksIncrease(t, nows[1..], i - 1, j - 1);
    } else if j > 1 {
      TicksIncrease(t, nows[1..], 0, j - 1);
    }
  }

  /** No stamp of a run is behind a reading taken so far. */
  lemma {:induction false} TicksFollowReadings(s: Stamp, nows: seq<int>, j: nat, i: nat)
    requires s.counter <= MAX_COUNTER && j <= i < |nows|
    ensures Ticks(s, nows)[i].ms >= nows[j]
    decreases |nows|
  {
    var t := Tick(s, nows[0]);
    if j > 0 {
      TicksFollowReadings(t, nows[1..], j - 1, i - 1);
    } else if i > 0 {
      TicksDoNotStepBack(t, nows[1..], i - 1);
    }
  }

  lemma {:induction false} TicksDoNotStepBack(s: Stamp, nows: seq<int>, i: nat)
    requires s.counter <= MAX_COUNTER && i < |nows|
    ensures Ticks(s, nows)[i].ms >= s.ms
    decreases |nows|
  {
    if i > 0 { TicksDoNotStepBack(Tick(s, nows[0]), nows[1..], i - 1); }
  }

  /** Every run of the source is strictly increasing in the encoded order, whatever the
      wall clock does, as long as the later clock still fits 13 digits. */
  lemma ClockRunIncreases(s: Stamp, nows: seq<int>, device: string, i: nat, j: nat)
    requires s.counter <= MAX_COUNTER
    requires i < j < |nows|
    requires InRange(Ticks(s, nows)[j])
    ensures Less(Encode(Ticks(s, nows)[i], device), Encode(Ticks(s, nows)[j], device))
  {
    TicksIncrease(s, nows, i, j);
    TickCounter(s, nows, i);
    EncodeOrder(Ticks(s, nows)[i], device, Ticks(s, nows)[j], device);
  }

  lemma {:induction false} TickCounter(s: Stamp, nows: seq<int>, i: nat)
    requires s.counter <= MAX_COUNTER && i < |nows|
    ensures Ticks(s, nows)[i].counter <= MAX_COUNTER
    decreases |nows|
  {
    if i > 0 { TickCounter(Tick(s, nows[0]), nows[1..], i - 1); }
  }

  lemma LaterStamp(s: Stamp, t: Stamp, device: string)
    requires StampLess(s, t) && s.counter <= MAX_COUNTER && InRange(t)
    ensures Less(Encode(s, device), Encode(t, device))
  {
    EncodeOrder(s, device, t, device);
  }

  /** The source itself: never emits the same or an earlier clock twice. */
  class HlcClock {
    var lastMs: nat
    var counter: nat

    ghost predicate Valid()
      reads this
    {
      counter <= MAX_COUNTER
    }

    function Now(): Stamp
      reads this
    {
      Stamp(lastMs, counter)
    }

    constructor ()
      ensures Valid() && Now() == Stamp(0, 0)
    {
      lastMs, counter := 0, 0;
    }

    method Next(now: int, device: string) returns (h: Clock)
      requires Valid()
      modifies this
      ensures Valid() && Now() == Tick(old(Now()), now)
      ensures StampLess(old(Now()), Now()) && Now().ms >= now
      ensures h == Encode(Now(), device)
      ensures InRange(Now()) ==> Less(Encode(old(Now()), device), h)
    {
      ghost var before := Now();
      if now > lastMs {
        lastMs := now;
        counter := 0;
      } else {
        counter := counter + 1;
        if counter > MAX_COUNTER {
          lastMs := lastMs + 1;
          counter := 0;
        }
      }
      h := Encode(Stamp(lastMs, counter), device);
      if InRange(Now()) { LaterStamp(before, Now(), device); }
    }
  }
}
