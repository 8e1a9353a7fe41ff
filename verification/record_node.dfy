/** The byte code of one record node in internal/mdt/record.go: encodeNode, encodeDelta and back.
    Bytes are numbers below 256. */
module RecordNode {
  import opened Wrappers
  import opened Bytes

  /** A capture: its name and its bounds in the line. */
  datatype Head = Head(name: seq<Byte>, lo: int, hi: int)

  // ---------------------------------------------------------------- bounds

  /** Bounds in order, and within the coded ranges. */
  predicate InRange(lo: int, hi: int, d: int)
  {
    0 <= lo - d <= 0x3FFF && 0 <= hi - lo <= 0xFFFF
  }

  function EncodeDelta(lo: int, hi: int, d: int): (r: seq<Byte>)
    requires InRange(lo, hi, d)
    ensures 1 <= |r| <= 4
  {
    var d1, d2 := lo - d, hi - lo;
    if d1 <= 7 && d2 <= 15 then [d1 * 16 + d2]
    else if d1 <= 63 && d2 <= 255 then [128 + d1, d2]
    else [192 + d1 / 256, d1 % 256, d2 / 256, d2 % 256]
  }

  datatype Bounds = Bounds(lo: int, hi: int, size: nat)

  function DecodeDelta(buf: seq<Byte>, d: int): Option<Bounds>
  {
    if |buf| < 1 then None
    else if buf[0] < 128 then
      var lo := buf[0] / 16 + d;
      Some(Bounds(lo, lo + buf[0] % 16, 1))
    else if buf[0] % 128 < 64 then
      if |buf| < 2 then None
      else
        var lo := buf[0] % 64 + d;
        Some(Bounds(lo, lo + buf[1], 2))
    else if |buf| < 4 then None
    else
      var lo := buf[0] % 64 * 256 + buf[1] + d;
      Some(Bounds(lo, buf[2] * 256 + buf[3] + lo, 4))
  }

  /** Bounds come back, whatever follows them. */
  lemma DeltaRoundTrip(lo: int, hi: int, d: int, rest: seq<Byte>)
    requires InRange(lo, hi, d)
    ensures DecodeDelta(EncodeDelta(lo, hi, d) + rest, d) == Some(Bounds(lo, hi, |EncodeDelta(lo, hi, d)|))
  {
    var e := EncodeDelta(lo, hi, d);
    var buf := e + rest;
    assert buf[0] == e[0] && (|e| > 1 ==> buf[1] == e[1]) && (|e| > 2 ==> buf[2] == e[2]) && (|e| > 3 ==> buf[3] == e[3]);
    DeltaAt(buf, lo, hi, d);
  }

  lemma DeltaAt(buf: seq<Byte>, lo: int, hi: int, d: int)
    requires InRange(lo, hi, d) && |EncodeDelta(lo, hi, d)| <= |buf|
    requires forall k :: 0 <= k < |EncodeDelta(lo, hi, d)| ==> buf[k] == EncodeDelta(lo, hi, d)[k]
    ensures DecodeDelta(buf, d) == Some(Bounds(lo, hi, |EncodeDelta(lo, hi, d)|))
  {
    var d1, d2 := lo - d, hi - lo;
    if d1 <= 7 && d2 <= 15 {
      assert buf[0] == d1 * 16 + d2;
    } else if d1 <= 63 && d2 <= 255 {
      assert buf[0] == 128 + d1 && buf[1] == d2;
    } else {
      assert buf[0] == 192 + d1 / 256 && buf[1] == d1 % 256 && buf[2] == d2 / 256 && buf[3] == d2 % 256;
    }
  }

  // ---------------------------------------------------------------- names

  /** encodeNode panics from this length on. */
  const LongName := 0x3FFF

  predicate Encodable(h: Head, d: int) { |h.name| < LongName && InRange(h.lo, h.hi, d) }

  /** The length in front of a name: a long one has two bytes, and drops the bit of 32. */
  function EncodeLength(n: nat): (r: seq<Byte>)
    requires n < LongName
  {
    if n < 63 then [n] else [64 + n % 32, n / 64]
  }

  function EncodeNode(h: Head, d: int): (r: seq<Byte>)
    requires Encodable(h, d)
    ensures |r| >= 2 && r[0] < 128
  {
    EncodeLength(|h.name|) + h.name + EncodeDelta(h.lo, h.hi, d)
  }

  datatype Decoded = Decoded(head: Head, size: nat)

  /** decodeNode; None where the code would panic or read past the end. */
  function DecodeNode(buf: seq<Byte>, d: int): Option<Decoded>
  {
    if |buf| < 1 || buf[0] >= 128 then None
    else if buf[0] >= 64 && |buf| < 2 then None
    else
      var from: nat := if buf[0] >= 64 then 2 else 1;
      var n: nat := if buf[0] >= 64 then buf[0] % 64 + buf[1] as nat * 64 else buf[0];
      var l := from + n;
      if l > |buf| then None
      else
        var b := DecodeDelta(buf[l..], d);
        if b.None? then None
        else Some(Decoded(Head(buf[from..l], b.value.lo, b.value.hi), l + b.value.size))
  }

  /** Lengths that keep all their bits. */
  predicate Kept(n: nat) { n < 63 || n % 64 < 32 }

  lemma SixtyFour(n: nat)
    requires n >= 63 && n < LongName
    ensures 64 + n % 32 < 96 && (64 + n % 32) % 64 == n % 32
    ensures n % 32 + n / 64 * 64 == (if n % 64 < 32 then n else n - 32)
  {
    assert n == n / 64 * 64 + n % 64;
  }

  /** A name and its bounds come back, whatever follows them, if the length keeps its bits. */
  lemma NodeRoundTrip(h: Head, d: int, rest: seq<Byte>)
    requires Encodable(h, d) && Kept(|h.name|)
    ensures DecodeNode(EncodeNode(h, d) + rest, d) == Some(Decoded(h, |EncodeNode(h, d)|))
  {
    var n := |h.name|;
    var delta := EncodeDelta(h.lo, h.hi, d);
    var buf := EncodeNode(h, d) + rest;
    var from := |EncodeLength(n)|;
    if n >= 63 {
      SixtyFour(n);
    }
    assert forall i :: 0 <= i < from ==> buf[i] == EncodeLength(n)[i];
    assert buf[from..from + n] == h.name;
    assert buf[from + n..] == delta + rest;
    DeltaRoundTrip(h.lo, h.hi, d, rest);
  }

  /** A length that loses a bit gives another name, or none. */
  lemma NodeLost(h: Head, d: int, rest: seq<Byte>)
    requires Encodable(h, d) && !Kept(|h.name|)
    ensures var r := DecodeNode(EncodeNode(h, d) + rest, d);
      r.Some? ==> |r.value.head.name| == |h.name| - 32
  {
    var n := |h.name|;
    var buf := EncodeNode(h, d) + rest;
    SixtyFour(n);
    assert forall i :: 0 <= i < 2 ==> buf[i] == EncodeLength(n)[i];
  }

  /** encodeNode and decodeNode are inverse exactly on names whose length is below 63, or has the bit
      of 32 clear. */
  lemma NodeExact(h: Head, d: int, rest: seq<Byte>)
    requires Encodable(h, d)
    ensures DecodeNode(EncodeNode(h, d) + rest, d) == Some(Decoded(h, |EncodeNode(h, d)|)) <==> Kept(|h.name|)
  {
    if Kept(|h.name|) {
      NodeRoundTrip(h, d, rest);
    } else {
      NodeLost(h, d, rest);
    }
  }

  /** A name of 63 bytes does not come back. */
  lemma LongNameLost(c: Byte)
    ensures
      var h := Head(seq(63, _ => c), 0, 0);
      Encodable(h, 0) && DecodeNode(EncodeNode(h, 0), 0) != Some(Decoded(h, |EncodeNode(h, 0)|))
  {
    var h := Head(seq(63, _ => c), 0, 0);
    NodeExact(h, 0, []);
    hide DecodeNode, EncodeNode;
    assert EncodeNode(h, 0) + [] == EncodeNode(h, 0);
  }

  /** The three codings of bounds, and a name of two letters. */
  lemma NodeBytes()
    ensures EncodeNode(Head([97, 98], 3, 5), 0) == [2, 97, 98, 0x32]
    ensures EncodeNode(Head([97, 98], 10, 30), 1) == [2, 97, 98, 0x89, 20]
    ensures EncodeNode(Head([97, 98], 100, 400), 0) == [2, 97, 98, 0xC0, 100, 1, 44]
  {
  }
}
