/**
 Splitting an oversized message into continuation entries, and joining it back.
 */
module PartsSplit {
  import opened Wrappers
  import opened Utf8
  import opened Transcript
  import Hlc

  const MSG_INLINE_MAX := 256 * 1024

  /** The size of a part; `other` gives the serialized size of the parts that are not text. */
  function ByteLen(p: Part, other: Part -> nat): nat {
    if TextBodied(p) then |p.text| else other(p)
  }

  function Size(ps: seq<Part>, other: Part -> nat): nat {
    if ps == [] then 0 else Size(ps[..|ps| - 1], other) + ByteLen(ps[|ps| - 1], other)
  }

  // ---------------------------------------------------------------------------
  // Cutting one text

  /** The length of the next piece of a text: the cap, backed up to a character boundary; the whole
      rest if that makes no progress. */
  function Cut(s: Bytes): (e: nat)
    requires s != []
    ensures 0 < e <= |s|
  {
    var e := BackUp(s, if |s| < MSG_INLINE_MAX then |s| else MSG_INLINE_MAX);
    if e == 0 then |s| else e
  }

  /** In well-formed text the forward-progress guard never fires and no piece exceeds the cap. */
  lemma CutMakesProgress(s: Bytes)
    requires IsText(s) && s != []
    ensures BackUp(s, if |s| < MSG_INLINE_MAX then |s| else MSG_INLINE_MAX) > 0
    ensures Cut(s) <= MSG_INLINE_MAX && IsCharBoundary(s, Cut(s))
    ensures |s| > MSG_INLINE_MAX ==> Cut(s) > MSG_INLINE_MAX - 4
  {
    if |s| > MSG_INLINE_MAX {
      BoundaryNear(s, MSG_INLINE_MAX);
      var j: nat :| j <= MSG_INLINE_MAX < j + 4 && !Continuation(s[j]);
      assert IsCharBoundary(s, j);
    }
  }

  function Pieces(s: Bytes): seq<Bytes>
    decreases |s|
  {
    if s == [] then [] else [s[..Cut(s)]] + Pieces(s[Cut(s)..])
  }

  /** The pieces of a text concatenate to it; each is well-formed text within the cap. */
  lemma {:induction false} PiecesRestore(s: Bytes)
    requires IsText(s)
    ensures Concat(Pieces(s)) == s
    ensures forall p :: p in Pieces(s) ==> IsText(p) && 0 < |p| <= MSG_INLINE_MAX
    decreases |s|
  {
    if s != [] {
      CutMakesProgress(s);
      CutAtBoundary(s, Cut(s));
      PiecesRestore(s[Cut(s)..]);
    }
  }

  // ---------------------------------------------------------------------------
  // Cutting parts

  function PieceId(id: string, n: nat): string {
    if n == 0 then id else id + "~" + Hlc.Decimal(n)
  }

  /** The first piece keeps the part's id, and no two pieces of a part share one. */
  lemma PieceIdsDiffer(id: string, m: nat, n: nat)
    ensures PieceId(id, 0) == id
    ensures m != n ==> PieceId(id, m) != PieceId(id, n)
  {
    Hlc.ValueOfDecimal(m);
    Hlc.ValueOfDecimal(n);
    var a, b := PieceId(id, m), PieceId(id, n);
    if m > 0 && n > 0 {
      assert a[|id| + 1..] == Hlc.Decimal(m) && b[|id| + 1..] == Hlc.Decimal(n);
    } else if m != n {
      assert |a| != |b|;
    }
  }

  predicate Oversized(p: Part) {
    TextBodied(p) && |p.text| > MSG_INLINE_MAX
  }

  function Piece(p: Part, body: Bytes, n: nat): Part
    requires TextBodied(p)
  {
    if p.Text? then Text(PieceId(p.id, n), body) else Reasoning(PieceId(p.id, n), body)
  }

  /** The bodies as parts of `p`'s kind, numbered from `n`. */
  function Numbered(p: Part, bodies: seq<Bytes>, n: nat): seq<Part>
    requires TextBodied(p)
  {
    seq(|bodies|, i requires 0 <= i < |bodies| => Piece(p, bodies[i], n + i))
  }

  function PiecesFrom(p: Part, s: Bytes, n: nat): seq<Part>
    requires TextBodied(p)
  {
    Numbered(p, Pieces(s), n)
  }

  function PartPieces(p: Part): seq<Part> {
    if Oversized(p) then PiecesFrom(p, p.text, 0) else [p]
  }

  function AllPieces(ps: seq<Part>): seq<Part> {
    if ps == [] then [] else PartPieces(ps[0]) + AllPieces(ps[1..])
  }

  function Body(p: Part): Bytes {
    if TextBodied(p) then p.text else []
  }

  function Bodies(ps: seq<Part>): seq<Bytes> {
    seq(|ps|, i requires 0 <= i < |ps| => Body(ps[i]))
  }

  /** `q` is a piece of `p` within the cap. */
  ghost predicate IsPieceOf(q: Part, p: Part) {
    TextBodied(q) && (q.Text? <==> p.Text?) && IsText(q.text) && 0 < |q.text| <= MSG_INLINE_MAX
  }

  lemma NumberedAre(p: Part, bodies: seq<Bytes>)
    requires TextBodied(p) && forall b :: b in bodies ==> IsText(b) && 0 < |b| <= MSG_INLINE_MAX
    ensures var qs := Numbered(p, bodies, 0);
            && (forall q :: q in qs ==> IsPieceOf(q, p))
            && (forall i :: 0 <= i < |qs| ==> qs[i].id == PieceId(p.id, i))
            && Bodies(qs) == bodies
  {
    var qs := Numbered(p, bodies, 0);
    forall i | 0 <= i < |qs| ensures IsPieceOf(qs[i], p) { assert bodies[i] in bodies; }
  }

  /** The pieces of an oversized part are of its kind, numbered from its own id, and their bodies
      concatenate to its body, cut at character boundaries. */
  lemma PartPiecesRestore(p: Part)
    requires Oversized(p) && IsText(p.text)
    ensures forall q :: q in PartPieces(p) ==> IsPieceOf(q, p)
    ensures forall i :: 0 <= i < |PartPieces(p)| ==> PartPieces(p)[i].id == PieceId(p.id, i)
    ensures Concat(Bodies(PartPieces(p))) == p.text
  {
    PiecesRestore(p.text);
    NumberedAre(p, Pieces(p.text));
  }

  // ---------------------------------------------------------------------------
  // Packing pieces into entries

  datatype Packed = Packed(chunks: seq<seq<Part>>, bytes: nat)

  function Pack(c: Packed, p: Part, other: Part -> nat): Packed
    requires c.chunks != []
  {
    var len := ByteLen(p, other);
    if c.bytes > 0 && c.bytes + len > MSG_INLINE_MAX then Packed(c.chunks + [[p]], len)
    else Packed(c.chunks[|c.chunks| - 1 := c.chunks[|c.chunks| - 1] + [p]], c.bytes + len)
  }

  function PackAll(c: Packed, ps: seq<Part>, other: Part -> nat): (r: Packed)
    requires c.chunks != []
    ensures r.chunks != []
    decreases |ps|
  {
    if ps == [] then c else PackAll(Pack(c, ps[0], other), ps[1..], other)
  }

  /** One list of parts per entry; the first keeps the root id, the rest are continuations. */
  function Split(ps: seq<Part>, other: Part -> nat): seq<seq<Part>> {
    PackAll(Packed([[]], 0), AllPieces(ps), other).chunks
  }

  /** Render-time inverse: the entries' parts in list order. */
  function Join(chunks: seq<seq<Part>>): seq<Part> {
    if chunks == [] then [] else Join(chunks[..|chunks| - 1]) + chunks[|chunks| - 1]
  }

  /** Within the cap, or a part that is not text exceeds it alone. */
  predicate Fits(chunk: seq<Part>, other: Part -> nat) {
    || Size(chunk, other) <= MSG_INLINE_MAX
    || (chunk != [] && var p := chunk[|chunk| - 1]; !TextBodied(p) && ByteLen(p, other) > MSG_INLINE_MAX && Size(chunk, other) == ByteLen(p, other))
  }

  predicate WellPacked(c: Packed, other: Part -> nat) {
    && c.chunks != []
    && c.bytes == Size(c.chunks[|c.chunks| - 1], other)
    && forall x :: x in c.chunks ==> Fits(x, other)
  }

  lemma PackStep(c: Packed, p: Part, other: Part -> nat)
    requires WellPacked(c, other) && !Oversized(p)
    ensures WellPacked(Pack(c, p, other), other)
    ensures Join(Pack(c, p, other).chunks) == Join(c.chunks) + [p]
  {
    var n, last := |c.chunks|, c.chunks[|c.chunks| - 1];
    var r := Pack(c, p, other);
    assert [p][..0] == [] && (last + [p])[..|last|] == last;
    if c.bytes > 0 && c.bytes + ByteLen(p, other) > MSG_INLINE_MAX {
      assert r.chunks[..n] == c.chunks;
    } else {
      assert r.chunks[..n - 1] == c.chunks[..n - 1];
      assert Join(c.chunks[..n - 1]) + (last + [p]) == (Join(c.chunks[..n - 1]) + last) + [p];
    }
    forall x | x in r.chunks ensures Fits(x, other) {
      var i :| 0 <= i < |r.chunks| && r.chunks[i] == x;
      if i < n && x == c.chunks[i] { assert x in c.chunks; }
      assert last in c.chunks;
    }
  }

  lemma {:induction false} PackAllKeeps(c: Packed, ps: seq<Part>, other: Part -> nat)
    requires WellPacked(c, other) && forall p :: p in ps ==> !Oversized(p)
    ensures WellPacked(PackAll(c, ps, other), other)
    ensures Join(PackAll(c, ps, other).chunks) == Join(c.chunks) + ps
    decreases |ps|
  {
    if ps != [] {
      assert ps[0] in ps;
      PackStep(c, ps[0], other);
      PackAllKeeps(Pack(c, ps[0], other), ps[1..], other);
      assert Join(c.chunks) + [ps[0]] + ps[1..] == Join(c.chunks) + ps;
    }
  }

  lemma {:induction false} NoPieceOversized(ps: seq<Part>)
    requires forall p :: p in ps && TextBodied(p) ==> IsText(p.text)
    ensures forall q :: q in AllPieces(ps) ==> !Oversized(q)
  {
    if ps != [] {
      assert ps[0] in ps;
      NoPieceOversized(ps[1..]);
      if Oversized(ps[0]) { PartPiecesRestore(ps[0]); }
    }
  }

  /** Joining the entries of a split message gives the pieces of its parts in order (so, by
      `PartPiecesRestore`, every body), and every entry is within the cap unless one part that is
      not text exceeds it alone. */
  lemma SplitJoins(ps: seq<Part>, other: Part -> nat)
    requires forall p :: p in ps && TextBodied(p) ==> IsText(p.text)
    ensures Join(Split(ps, other)) == AllPieces(ps)
    ensures forall c :: c in Split(ps, other) ==> Fits(c, other)
  {
    var start := Packed([[]], 0);
    assert Fits([], other) && start.chunks[..0] == [];
    assert Join(start.chunks) == [];
    NoPieceOversized(ps);
    PackAllKeeps(start, AllPieces(ps), other);
  }

  /** Each entry but the first begins with a part that did not fit the one before. */
  ghost predicate Greedy(chunks: seq<seq<Part>>, other: Part -> nat) {
    |chunks| <= 1 ||
    (var prev, last := chunks[|chunks| - 2], chunks[|chunks| - 1];
     && last != [] && Size(prev, other) > 0 && Size(prev, other) + ByteLen(last[0], other) > MSG_INLINE_MAX
     && Greedy(chunks[..|chunks| - 1], other))
  }

  lemma PackIsGreedy(c: Packed, p: Part, other: Part -> nat)
    requires c.chunks != [] && c.bytes == Size(c.chunks[|c.chunks| - 1], other) && Greedy(c.chunks, other)
    ensures var r := Pack(c, p, other);
            Greedy(r.chunks, other) && r.bytes == Size(r.chunks[|r.chunks| - 1], other)
  {
    var n, last := |c.chunks|, c.chunks[|c.chunks| - 1];
    var r := Pack(c, p, other);
    assert [p][..0] == [] && (last + [p])[..|last|] == last;
    if c.bytes > 0 && c.bytes + ByteLen(p, other) > MSG_INLINE_MAX {
      assert r.chunks[..n] == c.chunks;
    } else {
      assert r.chunks[..n - 1] == c.chunks[..n - 1];
    }
  }

  lemma {:induction false} PackAllIsGreedy(c: Packed, ps: seq<Part>, other: Part -> nat)
    requires c.chunks != [] && c.bytes == Size(c.chunks[|c.chunks| - 1], other) && Greedy(c.chunks, other)
    ensures Greedy(PackAll(c, ps, other).chunks, other)
    decreases |ps|
  {
    if ps != [] {
      PackIsGreedy(c, ps[0], other);
      PackAllIsGreedy(Pack(c, ps[0], other), ps[1..], other);
    }
  }

  /** An entry is filled before the next one is begun. */
  lemma SplitIsGreedy(ps: seq<Part>, other: Part -> nat)
    ensures Greedy(Split(ps, other), other)
  {
    PackAllIsGreedy(Packed([[]], 0), AllPieces(ps), other);
  }

  lemma {:induction false} KindStream(qs: seq<Part>, p: Part, s: Stream)
    requires TextBodied(p) && forall q :: q in qs ==> TextBodied(q) && (q.Text? <==> p.Text?)
    ensures StreamOf(qs, s) == if (s.Prose? <==> p.Text?) then Concat(Bodies(qs)) else []
  {
    if qs != [] {
      assert qs[0] in qs;
      KindStream(qs[1..], p, s);
      assert Bodies(qs)[1..] == Bodies(qs[1..]);
    }
  }

  lemma PartStream(p: Part, s: Stream)
    requires TextBodied(p) ==> IsText(p.text)
    ensures StreamOf(PartPieces(p), s) == StreamBody(p, s)
  {
    if Oversized(p) {
      PartPiecesRestore(p);
      KindStream(PartPieces(p), p, s);
    } else {
      assert StreamOf([p], s) == StreamBody(p, s) + StreamOf([p][1..], s);
    }
  }

  lemma {:induction false} AllPiecesStream(ps: seq<Part>, s: Stream)
    requires forall p :: p in ps && TextBodied(p) ==> IsText(p.text)
    ensures StreamOf(AllPieces(ps), s) == StreamOf(ps, s)
  {
    if ps != [] {
      assert ps[0] in ps;
      PartStream(ps[0], s);
      AllPiecesStream(ps[1..], s);
      StreamConcat(PartPieces(ps[0]), AllPieces(ps[1..]), s);
    }
  }

  /** Splitting and joining keep all prose and all reasoning, byte for byte. */
  lemma SplitKeepsStreams(ps: seq<Part>, other: Part -> nat, s: Stream)
    requires forall p :: p in ps && TextBodied(p) ==> IsText(p.text)
    ensures StreamOf(Join(Split(ps, other)), s) == StreamOf(ps, s)
  {
    SplitJoins(ps, other);
    AllPiecesStream(ps, s);
  }

  function Others(ps: seq<Part>): seq<Part> {
    if ps == [] then [] else (if TextBodied(ps[0]) then [] else [ps[0]]) + Others(ps[1..])
  }

  lemma {:induction false} OthersConcat(a: seq<Part>, b: seq<Part>)
    ensures Others(a + b) == Others(a) + Others(b)
  {
    if a == [] {
      assert a + b == b;
    } else {
      assert (a + b)[0] == a[0] && (a + b)[1..] == a[1..] + b;
      OthersConcat(a[1..], b);
    }
  }

  lemma {:induction false} TextHasNoOthers(qs: seq<Part>)
    requires forall q :: q in qs ==> TextBodied(q)
    ensures Others(qs) == []
  {
    if qs != [] {
      assert qs[0] in qs;
      TextHasNoOthers(qs[1..]);
    }
  }

  lemma {:induction false} AllPiecesOthers(ps: seq<Part>)
    ensures Others(AllPieces(ps)) == Others(ps)
  {
    if ps != [] {
      var p := ps[0];
      if Oversized(p) { TextHasNoOthers(PartPieces(p)); } else { assert [p][1..] == []; }
      AllPiecesOthers(ps[1..]);
      OthersConcat(PartPieces(p), AllPieces(ps[1..]));
    }
  }

  /** And every part that is not text, as it was and in order. */
  lemma SplitKeepsOthers(ps: seq<Part>, other: Part -> nat)
    requires forall p :: p in ps && TextBodied(p) ==> IsText(p.text)
    ensures Others(Join(Split(ps, other))) == Others(ps)
  {
    SplitJoins(ps, other);
    AllPiecesOthers(ps);
  }

  /** A message that needs no cutting splits only at part boundaries. */
  lemma {:induction false} SmallPartsAreWhole(ps: seq<Part>)
    requires forall p :: p in ps ==> !Oversized(p)
    ensures AllPieces(ps) == ps
  {
    if ps != [] {
      assert ps[0] in ps;
      SmallPartsAreWhole(ps[1..]);
    }
  }

  // ---------------------------------------------------------------------------
  // The loops

  method PushPart(c: Packed, p: Part, other: Part -> nat) returns (r: Packed)
    requires c.chunks != []
    ensures r == Pack(c, p, other)
  {
    var len := ByteLen(p, other);
    var chunks, bytes := c.chunks, c.bytes;
    if bytes > 0 && bytes + len > MSG_INLINE_MAX {
      chunks, bytes := chunks + [[]], 0;
    }
    assert [] + [p] == [p];
    r := Packed(chunks[|chunks| - 1 := chunks[|chunks| - 1] + [p]], bytes + len);
  }

  method SplitParts(ps: seq<Part>, other: Part -> nat) returns (chunks: seq<seq<Part>>)
    requires forall p :: p in ps && TextBodied(p) ==> IsText(p.text)
    ensures chunks == Split(ps, other)
  {
    var c := Packed([[]], 0);
    var i := 0;
    while i < |ps|
      invariant 0 <= i <= |ps| && c.chunks != []
      invariant PackAll(c, AllPieces(ps[i..]), other) == PackAll(Packed([[]], 0), AllPieces(ps), other)
    {
      assert ps[i] in ps;
      assert ps[i..][1..] == ps[i + 1..];
      PackAllConcat(c, PartPieces(ps[i]), AllPieces(ps[i + 1..]), other);
      c := PushPieces(c, ps[i], other);
      i := i + 1;
    }
    chunks := c.chunks;
  }

  /** One part of the message: pushed whole, or cut at character boundaries. */
  method PushPieces(start: Packed, p: Part, other: Part -> nat) returns (c: Packed)
    requires start.chunks != [] && (TextBodied(p) ==> IsText(p.text))
    ensures c == PackAll(start, PartPieces(p), other)
  {
    if Oversized(p) {
      c := PushCut(start, p, other);
    } else {
      c := PushPart(start, p, other);
      assert [p][1..] == [];
    }
  }

  method PushCut(start: Packed, p: Part, other: Part -> nat) returns (c: Packed)
    requires start.chunks != [] && TextBodied(p) && IsText(p.text)
    ensures c == PackAll(start, PiecesFrom(p, p.text, 0), other)
  {
    var text, at, n := p.text, 0, 0;
    c := start;
    ghost var goal := PackAll(start, PiecesFrom(p, text, 0), other);
    assert text[0..] == text;
    while at < |text|
      invariant 0 <= at <= |text| && c.chunks != []
      invariant IsText(text[at..]) && IsCharBoundary(text, at)
      invariant PackAll(c, PiecesFrom(p, text[at..], n), other) == goal
    {
      c, at := PushPiece(c, p, text, at, n, other);
      n := n + 1;
    }
    assert text[at..] == [];
  }

  /** One turn of the cutting loop. */
  method PushPiece(c: Packed, p: Part, text: Bytes, at: nat, n: nat, other: Part -> nat) returns (r: Packed, end: nat)
    requires c.chunks != [] && TextBodied(p) && at < |text| && IsText(text[at..]) && IsCharBoundary(text, at)
    ensures r.chunks != [] && at < end <= |text| && IsText(text[end..]) && IsCharBoundary(text, end)
    ensures PackAll(r, PiecesFrom(p, text[end..], n + 1), other) == PackAll(c, PiecesFrom(p, text[at..], n), other)
  {
    end := NextCut(text, at);
    PiecesStep(p, text, at, end, n);
    PackAllCons(c, Piece(p, text[at..end], n), PiecesFrom(p, text[end..], n + 1), other);
    r := PushPart(c, Piece(p, text[at..end], n), other);
  }

  lemma PiecesStep(p: Part, text: Bytes, at: nat, end: nat, n: nat)
    requires TextBodied(p) && at < |text| && IsText(text[at..]) && IsCharBoundary(text, at)
    requires end == at + Cut(text[at..])
    ensures IsText(text[end..]) && IsCharBoundary(text, end)
    ensures PiecesFrom(p, text[at..], n) == [Piece(p, text[at..end], n)] + PiecesFrom(p, text[end..], n + 1)
  {
    var rest := text[at..];
    CutMakesProgress(rest);
    CutAtBoundary(rest, Cut(rest));
    SameBoundaries(text, at, Cut(rest));
    assert rest[..Cut(rest)] == text[at..end] && rest[Cut(rest)..] == text[end..];
    assert Pieces(rest) == [text[at..end]] + Pieces(text[end..]);
    NumberedCons(p, text[at..end], Pieces(text[end..]), n);
  }

  lemma NumberedCons(p: Part, body: Bytes, bodies: seq<Bytes>, n: nat)
    requires TextBodied(p)
    ensures Numbered(p, [body] + bodies, n) == [Piece(p, body, n)] + Numbered(p, bodies, n + 1)
  {}

  lemma PackAllCons(c: Packed, p: Part, ps: seq<Part>, other: Part -> nat)
    requires c.chunks != []
    ensures PackAll(c, [p] + ps, other) == PackAll(Pack(c, p, other), ps, other)
  {
    assert ([p] + ps)[1..] == ps;
  }

  /** The end of the piece that starts at `at`. */
  method NextCut(text: Bytes, at: nat) returns (end: nat)
    requires at < |text| && IsText(text[at..]) && IsCharBoundary(text, at)
    ensures end == at + Cut(text[at..])
  {
    ghost var rest := text[at..];
    ghost var cap := if |rest| < MSG_INLINE_MAX then |rest| else MSG_INLINE_MAX;
    end := if at + MSG_INLINE_MAX < |text| then at + MSG_INLINE_MAX else |text|;
    while end < |text| && !IsCharBoundary(text, end)
      invariant at <= end <= at + cap
      invariant BackUp(rest, end - at) == BackUp(rest, cap)
      decreases end
    {
      SameBoundaries(text, at, end - at);
      end := end - 1;
    }
    SameBoundaries(text, at, end - at);
    if end <= at { end := |text|; }
  }

  lemma SameBoundaries(text: Bytes, at: nat, e: nat)
    requires at + e <= |text| && IsCharBoundary(text, at)
    ensures IsCharBoundary(text, at + e) <==> IsCharBoundary(text[at..], e)
  {}

  lemma {:induction false} PackAllConcat(c: Packed, a: seq<Part>, b: seq<Part>, other: Part -> nat)
    requires c.chunks != []
    ensures PackAll(c, a + b, other) == PackAll(PackAll(c, a, other), b, other)
    decreases |a|
  {
    if a == [] {
      assert a + b == b;
    } else {
      assert (a + b)[0] == a[0] && (a + b)[1..] == a[1..] + b;
      PackAllConcat(Pack(c, a[0], other), a[1..], b, other);
    }
  }
}
