/**
 Text as Rust keeps it: UTF-8 bytes (section 3 of RFC 3629).
 */
module Utf8 {
  newtype byte = x: int | 0 <= x < 256

  type Bytes = seq<byte>

  predicate Continuation(b: byte) {
    0x80 <= b < 0xC0
  }

  /** A position between characters: an end of the text, or the first byte of a character. */
  predicate IsCharBoundary(s: Bytes, i: nat) {
    i == 0 || i == |s| || (i < |s| && !Continuation(s[i]))
  }

  /** One encoded character: a leading byte and the continuation bytes it announces. */
  predicate IsChar(c: Bytes) {
    && 1 <= |c| <= 4
    && !Continuation(c[0])
    && (forall i :: 1 <= i < |c| ==> Continuation(c[i]))
    && (|c| == 1 <==> c[0] < 0x80)
    && (|c| == 2 <==> 0xC0 <= c[0] < 0xE0)
    && (|c| == 3 <==> 0xE0 <= c[0] < 0xF0)
    && (|c| == 4 <==> 0xF0 <= c[0])
  }

  function Concat(cs: seq<Bytes>): Bytes {
    if cs == [] then [] else cs[0] + Concat(cs[1..])
  }

  /** Well-formed text: a concatenation of encoded characters. */
  ghost predicate IsText(s: Bytes) {
    exists cs: seq<Bytes> :: (forall c :: c in cs ==> IsChar(c)) && s == Concat(cs)
  }

  /** In well-formed text no four bytes in a row are all continuation bytes. */
  lemma {:induction false} BoundaryWithinFour(cs: seq<Bytes>, i: nat)
    requires forall c :: c in cs ==> IsChar(c)
    requires i < |Concat(cs)|
    ensures exists j: nat :: j <= i < j + 4 && !Continuation(Concat(cs)[j])
  {
    var s, c := Concat(cs), cs[0];
    assert c in cs;
    if i < |c| {
      assert s[0] == c[0];
      assert 0 <= i < 0 + 4 && !Continuation(s[0]);
    } else {
      var t := Concat(cs[1..]);
      BoundaryWithinFour(cs[1..], i - |c|);
      var j: nat :| j <= i - |c| < j + 4 && !Continuation(t[j]);
      assert s[j + |c|] == t[j];
    }
  }

  lemma {:induction false} ConcatParts(a: seq<Bytes>, b: seq<Bytes>)
    ensures Concat(a + b) == Concat(a) + Concat(b)
  {
    if a == [] {
      assert a + b == b;
    } else {
      assert (a + b)[0] == a[0] && (a + b)[1..] == a[1..] + b;
      ConcatParts(a[1..], b);
    }
  }

  lemma InsideChar(cs: seq<Bytes>, i: nat)
    requires cs != [] && IsChar(cs[0]) && 0 < i < |cs[0]|
    ensures i < |Concat(cs)| && !IsCharBoundary(Concat(cs), i)
  {
    assert Concat(cs)[i] == cs[0][i];
  }

  /** The boundaries of well-formed text are exactly the ends of its characters. */
  lemma {:induction false} BoundaryEndsChar(cs: seq<Bytes>, i: nat) returns (k: nat)
    requires forall c :: c in cs ==> IsChar(c)
    requires i <= |Concat(cs)| && IsCharBoundary(Concat(cs), i)
    ensures k <= |cs| && |Concat(cs[..k])| == i
  {
    if i == 0 {
      k := 0;
    } else {
      var c, t := cs[0], Concat(cs[1..]);
      assert c in cs;
      if i < |c| { InsideChar(cs, i); }
      assert i < |Concat(cs)| ==> Concat(cs)[i] == t[i - |c|];
      var j := BoundaryEndsChar(cs[1..], i - |c|);
      k := j + 1;
      assert cs[..k][0] == c && cs[..k][1..] == cs[1..][..j];
    }
  }

  /** The ends of the characters of well-formed text are boundaries. */
  lemma CharEndsAtBoundary(cs: seq<Bytes>, k: nat)
    requires (forall c :: c in cs ==> IsChar(c)) && k <= |cs|
    ensures |Concat(cs[..k])| <= |Concat(cs)| && IsCharBoundary(Concat(cs), |Concat(cs[..k])|)
  {
    assert cs == cs[..k] + cs[k..];
    ConcatParts(cs[..k], cs[k..]);
    if k < |cs| {
      assert cs[k] in cs && Concat(cs[k..])[0] == cs[k][0];
    } else {
      assert cs[..k] == cs;
    }
  }

  /** Boundaries and ends of characters are the same positions. */
  lemma BoundaryIffCharEnd(cs: seq<Bytes>, i: nat)
    requires (forall c :: c in cs ==> IsChar(c)) && i <= |Concat(cs)|
    ensures IsCharBoundary(Concat(cs), i) <==> exists k: nat :: k <= |cs| && |Concat(cs[..k])| == i
  {
    if IsCharBoundary(Concat(cs), i) {
      var k := BoundaryEndsChar(cs, i);
    } else if k: nat :| k <= |cs| && |Concat(cs[..k])| == i {
      CharEndsAtBoundary(cs, k);
    }
  }

  /** Cutting well-formed text at a boundary gives two well-formed texts. */
  lemma CutAtBoundary(s: Bytes, i: nat)
    requires IsText(s) && i <= |s| && IsCharBoundary(s, i)
    ensures IsText(s[..i]) && IsText(s[i..])
  {
    var cs: seq<Bytes> :| (forall c :: c in cs ==> IsChar(c)) && s == Concat(cs);
    var k := BoundaryEndsChar(cs, i);
    assert cs == cs[..k] + cs[k..];
    ConcatParts(cs[..k], cs[k..]);
    assert s[..i] == Concat(cs[..k]) && s[i..] == Concat(cs[k..]);
  }

  /** Any position of well-formed text has a boundary at most three bytes before it. */
  lemma BoundaryNear(s: Bytes, i: nat)
    requires IsText(s) && i < |s|
    ensures exists j: nat :: j <= i < j + 4 && !Continuation(s[j])
  {
    var cs: seq<Bytes> :| (forall c :: c in cs ==> IsChar(c)) && s == Concat(cs);
    BoundaryWithinFour(cs, i);
  }

  /** The nearest boundary at or before `i`: the loop both cutters run. */
  function BackUp(s: Bytes, i: nat): (e: nat)
    requires i <= |s|
    ensures e <= i && IsCharBoundary(s, e)
    ensures forall j :: e < j <= i ==> !IsCharBoundary(s, j)
  {
    if IsCharBoundary(s, i) then i else BackUp(s, i - 1)
  }
}
