/**
 The chat wire format: `[type][header length, u32 little-endian][header][payload]`, and the
 length-prefixed body that carries a page of frames over plain HTTP.

 A header is kept as its encoded bytes; which bytes parse as a JSON object is a parameter.
 */
module ChatFrames {
  import opened Wrappers
  import opened Utf8

  const MAX_HEADER_BYTES := 4096

  const ROW: byte := 0x04

  /** hello, state, rowsReq, row, rowsDone, push, ack, presence, probe, probeOk, error. */
  predicate KnownType(kind: byte) {
    0x01 <= kind <= 0x0b
  }

  datatype Frame = Frame(kind: byte, header: Bytes, payload: Bytes)

  // ---------------------------------------------------------------------------
  // 32-bit little-endian lengths

  const TWO32 := 0x1_0000_0000

  /** The low 32 bits of a length, least significant byte first. */
  function Le32(n: nat): (r: Bytes)
    ensures |r| == 4
  {
    [(n % 256) as byte, (n / 256 % 256) as byte, (n / 65536 % 256) as byte, (n / 16777216 % 256) as byte]
  }

  function FromLe32(b: Bytes): (n: nat)
    requires |b| == 4
    ensures n < TWO32
  {
    b[0] as nat + 256 * b[1] as nat + 65536 * b[2] as nat + 16777216 * b[3] as nat
  }

  lemma LengthReadsBack(n: nat)
    ensures FromLe32(Le32(n)) == n % TWO32
  {
    var a, b, c, d := n % 256, n / 256 % 256, n / 65536 % 256, n / 16777216 % 256;
    assert n / 65536 == n / 256 / 256 && n / 16777216 == n / 65536 / 256;
    assert n == a + 256 * b + 65536 * c + 16777216 * d + TWO32 * (n / TWO32) by {
      assert n / TWO32 == n / 16777216 / 256;
    }
  }

  lemma LengthIsCanonical(b: Bytes)
    requires |b| == 4
    ensures Le32(FromLe32(b)) == b
  {
    var n := FromLe32(b);
    var w, x, y, z := b[0] as nat, b[1] as nat, b[2] as nat, b[3] as nat;
    assert n == w + 256 * (x + 256 * (y + 256 * z));
    assert n % 256 == w && n / 256 == x + 256 * (y + 256 * z);
    assert n / 65536 == n / 256 / 256 == y + 256 * z;
    assert n / 16777216 == n / 65536 / 256 == z;
  }

  // ---------------------------------------------------------------------------
  // Frames

  function Encode(f: Frame): Bytes {
    [f.kind] + Le32(|f.header|) + f.header + f.payload
  }

  /** The reader's common half; `known` says which types it takes. The server refuses unknown
      types, the native client leaves them to be skipped later. */
  function DecodeWith(b: Bytes, isObject: Bytes -> bool, known: byte -> bool): Option<Frame> {
    if |b| < 5 || !known(b[0]) then None
    else
      var n := FromLe32(b[1..5]);
      if n > MAX_HEADER_BYTES || 5 + n > |b| || !isObject(b[5..5 + n]) then None
      else Some(Frame(b[0], b[5..5 + n], b[5 + n..]))
  }

  function ServerDecode(b: Bytes, isObject: Bytes -> bool): Option<Frame> {
    DecodeWith(b, isObject, KnownType)
  }

  function ClientDecode(b: Bytes, isObject: Bytes -> bool): Option<Frame> {
    DecodeWith(b, isObject, (kind: byte) => true)
  }

  /** The server reads exactly the frames of known type that a client reads, and reads them alike. */
  lemma DecodersAgree(b: Bytes, isObject: Bytes -> bool, f: Frame)
    ensures ServerDecode(b, isObject) == Some(f) <==> ClientDecode(b, isObject) == Some(f) && KnownType(f.kind)
  {}

  lemma EncodedParts(f: Frame)
    ensures var b := Encode(f);
            && |b| == 5 + |f.header| + |f.payload| && b[0] == f.kind
            && FromLe32(b[1..5]) == |f.header| % TWO32
            && b[5..] == f.header + f.payload
  {
    LengthReadsBack(|f.header|);
    assert Encode(f)[1..5] == Le32(|f.header|);
  }

  /** A frame survives the wire exactly when its type is taken, its header fits and parses. */
  lemma FrameRoundTrip(f: Frame, isObject: Bytes -> bool, known: byte -> bool)
    ensures DecodeWith(Encode(f), isObject, known) == Some(f)
       <==> known(f.kind) && |f.header| <= MAX_HEADER_BYTES && isObject(f.header)
  {
    var b := Encode(f);
    EncodedParts(f);
    var n := FromLe32(b[1..5]);
    if n == |f.header| {
      assert b[5..5 + n] == b[5..][..n] == f.header;
      assert b[5 + n..] == b[5..][n..] == f.payload;
    } else {
      assert |f.header| > MAX_HEADER_BYTES;
      OtherLength(b, isObject, known, f.header);
    }
  }

  lemma OtherLength(b: Bytes, isObject: Bytes -> bool, known: byte -> bool, header: Bytes)
    requires |b| >= 5 && FromLe32(b[1..5]) != |header|
    ensures var d := DecodeWith(b, isObject, known); d.Some? ==> d.value.header != header
  {
    var n := FromLe32(b[1..5]);
    if 5 + n <= |b| { assert |b[5..5 + n]| == n; }
  }

  /** Nothing is dropped in decoding: the frame read determines the bytes it was read from. */
  lemma DecodeIsCanonical(b: Bytes, isObject: Bytes -> bool, known: byte -> bool)
    requires DecodeWith(b, isObject, known).Some?
    ensures var f := DecodeWith(b, isObject, known).value;
            && Encode(f) == b && known(f.kind) && |f.header| <= MAX_HEADER_BYTES && isObject(f.header)
  {
    var n := FromLe32(b[1..5]);
    LengthIsCanonical(b[1..5]);
    assert b == [b[0]] + b[1..5] + b[5..5 + n] + b[5 + n..];
  }

  /** Bytes of a buffer filled piece by piece. */
  method EncodeFrame(kind: byte, header: Bytes, payload: Bytes) returns (buffer: array<byte>)
    ensures fresh(buffer) && buffer[..] == Encode(Frame(kind, header, payload))
  {
    buffer := new byte[5 + |header| + |payload|];
    buffer[0] := kind;
    assert buffer[..1] == [kind];
    var off := Fill(buffer, 1, Le32(|header|));
    off := Fill(buffer, off, header);
    off := Fill(buffer, off, payload);
    assert buffer[..off] == buffer[..];
  }

  /** Copy `bytes` in at `off`, behind what is already there. */
  method Fill(buffer: array<byte>, off: nat, bytes: Bytes) returns (end: nat)
    requires off + |bytes| <= buffer.Length
    modifies buffer
    ensures end == off + |bytes| && buffer[..end] == old(buffer[..off]) + bytes
  {
    forall i | 0 <= i < |bytes| { buffer[off + i] := bytes[i]; }
    end := off + |bytes|;
  }

  // ---------------------------------------------------------------------------
  // Length-prefixed bodies

  function Prefixed(f: Bytes): Bytes {
    Le32(|f|) + f
  }

  function Body(fs: seq<Bytes>): Bytes {
    if fs == [] then [] else Prefixed(fs[0]) + Body(fs[1..])
  }

  /** The reader stops at the first frame that is not wholly there. */
  function Unframe(b: Bytes): seq<Bytes>
    decreases |b|
  {
    if |b| < 4 then []
    else
      var n := FromLe32(b[..4]);
      if 4 + n > |b| then [] else [b[4..4 + n]] + Unframe(b[4 + n..])
  }

  ghost predicate Short(fs: seq<Bytes>) {
    forall f :: f in fs ==> |f| < TWO32
  }

  lemma UnframeFirst(f: Bytes, rest: Bytes)
    requires |f| < TWO32
    ensures Unframe(Prefixed(f) + rest) == [f] + Unframe(rest)
  {
    LengthReadsBack(|f|);
    UnframeAt(Le32(|f|), f, rest);
  }

  lemma UnframeAt(length: Bytes, f: Bytes, rest: Bytes)
    requires |length| == 4 && FromLe32(length) == |f|
    ensures Unframe(length + f + rest) == [f] + Unframe(rest)
  {
    var b := length + f + rest;
    assert b[..4] == length;
    assert b[4..4 + |f|] == f;
    assert b[4 + |f|..] == rest;
  }

  /** The body parses back to the frames encoded. */
  lemma {:induction false} BodyRoundTrip(fs: seq<Bytes>)
    requires Short(fs)
    ensures Unframe(Body(fs)) == fs
  {
    if fs != [] {
      UnframeFirst(fs[0], Body(fs[1..]));
      BodyRoundTrip(fs[1..]);
    }
  }

  /** A body cut short anywhere yields a prefix of the frames, each of them whole. */
  lemma {:induction false} CutBodyIsPrefix(fs: seq<Bytes>, k: nat)
    requires Short(fs) && k <= |Body(fs)|
    ensures Unframe(Body(fs)[..k]) <= fs
    decreases |fs|
  {
    if fs != [] {
      var p, rest := Prefixed(fs[0]), Body(fs[1..]);
      if k < |p| {
        CutFirst(fs[0], rest, k);
      } else {
        assert (p + rest)[..k] == p + rest[..k - |p|];
        UnframeFirst(fs[0], rest[..k - |p|]);
        CutBodyIsPrefix(fs[1..], k - |p|);
      }
    }
  }

  lemma CutFirst(f: Bytes, rest: Bytes, k: nat)
    requires |f| < TWO32 && k < |Prefixed(f)|
    ensures Unframe((Prefixed(f) + rest)[..k]) == []
  {
    var b := (Prefixed(f) + rest)[..k];
    if k >= 4 {
      LengthReadsBack(|f|);
      assert b[..4] == Le32(|f|);
    }
  }

  lemma BodyLength(fs: seq<Bytes>, more: seq<Bytes>)
    ensures Body(fs + more) == Body(fs) + Body(more)
  {
    if fs == [] {
      assert fs + more == more;
    } else {
      assert (fs + more)[1..] == fs[1..] + more;
      BodyLength(fs[1..], more);
    }
  }

  /** The server sums the lengths, then copies frame after frame into one buffer. */
  method WriteBody(fs: seq<Bytes>) returns (buffer: array<byte>)
    ensures fresh(buffer) && buffer[..] == Body(fs)
  {
    var total := TotalLength(fs);
    buffer := new byte[total];
    var off := 0;
    var i := 0;
    while i < |fs|
      invariant 0 <= i <= |fs| && buffer.Length == |Body(fs)|
      invariant off == |Body(fs[..i])| && off <= buffer.Length
      invariant buffer[..off] == Body(fs[..i])
    {
      BodyStep(fs, i);
      off := FillPrefixed(buffer, off, fs[i]);
      i := i + 1;
    }
    assert fs[..i] == fs;
  }

  method FillPrefixed(buffer: array<byte>, off: nat, f: Bytes) returns (end: nat)
    requires off + |Prefixed(f)| <= buffer.Length
    modifies buffer
    ensures end == off + |Prefixed(f)| && buffer[..end] == old(buffer[..off]) + Prefixed(f)
  {
    end := Fill(buffer, off, Le32(|f|));
    end := Fill(buffer, end, f);
    assert old(buffer[..off]) + Le32(|f|) + f == old(buffer[..off]) + Prefixed(f);
  }

  lemma BodyStep(fs: seq<Bytes>, i: nat)
    requires i < |fs|
    ensures Body(fs[..i + 1]) == Body(fs[..i]) + Prefixed(fs[i])
    ensures |Body(fs[..i + 1])| <= |Body(fs)|
  {
    assert fs[..i + 1] == fs[..i] + [fs[i]];
    BodyLength(fs[..i], [fs[i]]);
    assert Body([fs[i]]) == Prefixed(fs[i]) + Body([]);
    BodyLength(fs[..i + 1], fs[i + 1..]);
    assert fs[..i + 1] + fs[i + 1..] == fs;
  }

  method TotalLength(fs: seq<Bytes>) returns (total: nat)
    ensures total == |Body(fs)|
  {
    total := 0;
    for i := 0 to |fs|
      invariant total == |Body(fs[..i])|
    {
      BodyStep(fs, i);
      total := total + 4 + |fs[i]|;
    }
    assert fs[..|fs|] == fs;
  }
}
