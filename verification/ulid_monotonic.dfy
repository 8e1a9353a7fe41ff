/** Monotonic entropy of internal/ulid/ulid.go: within one millisecond the 80 bits of entropy of the last
    identifier are increased.  What the readers deliver is a parameter: read entropy, and candidates for
    the random increment. */
module UlidMonotonic {
  import opened Wrappers
  import opened Arith
  import opened Bytes
  import opened UlidText

  const Word: nat := 0x1_0000_0000_0000_0000
  const High: nat := 0x1_0000
  const Limit: nat := 0x1_0000_0000_0000_0000_0000
  const BigTime: nat := 0x1_0000_0000_0000

  // ---------------------------------------------------------------- bytes, the highest first

  function Pow256(k: nat): nat { if k == 0 then 1 else 256 * Pow256(k - 1) }

  function BigEndian(bs: seq<Byte>): nat
  {
    if bs == [] then 0 else BigEndian(bs[..|bs| - 1]) * 256 + bs[|bs| - 1]
  }

  /** The last k bytes of n. */
  function ToBytes(n: nat, k: nat): (bs: seq<Byte>)
    ensures |bs| == k
  {
    if k == 0 then [] else ToBytes(n / 256, k - 1) + [n % 256]
  }

  lemma {:induction false} BytesBack(n: nat, k: nat)
    requires n < Pow256(k)
    ensures BigEndian(ToBytes(n, k)) == n
  {
    if k > 0 {
      BytesBack(n / 256, k - 1);
      var bs := ToBytes(n, k);
      assert bs[..k - 1] == ToBytes(n / 256, k - 1);
    }
  }

  lemma {:induction false} BelowPow(bs: seq<Byte>)
    ensures BigEndian(bs) < Pow256(|bs|)
  {
    if bs != [] {
      BelowPow(bs[..|bs| - 1]);
    }
  }

  lemma {:induction false} EndianBack(bs: seq<Byte>)
    ensures ToBytes(BigEndian(bs), |bs|) == bs
  {
    if bs != [] {
      var init, last := bs[..|bs| - 1], bs[|bs| - 1];
      EndianBack(init);
      assert (BigEndian(init) * 256 + last) / 256 == BigEndian(init) && (BigEndian(init) * 256 + last) % 256 == last;
      assert bs == init + [last];
    }
  }

  lemma TimesStep(a: nat, b: nat)
    ensures Times(a, 256 * b) == 256 * Times(a, b)
    ensures Times(a, 1) == a
  {
  }

  lemma {:induction false} EndianJoins(a: seq<Byte>, b: seq<Byte>)
    ensures BigEndian(a + b) == Times(BigEndian(a), Pow256(|b|)) + BigEndian(b)
    decreases |b|
  {
    if b == [] {
      assert a + b == a;
      TimesStep(BigEndian(a), 1);
    } else {
      var init := b[..|b| - 1];
      assert (a + b)[..|a + b| - 1] == a + init;
      EndianJoins(a, init);
      TimesStep(BigEndian(a), Pow256(|init|));
      hide Times;
    }
  }

  /** A smaller number has smaller bytes at the first difference. */
  lemma {:induction false} EndianBefore(a: seq<Byte>, b: seq<Byte>) returns (k: nat)
    requires |a| == |b| && BigEndian(a) < BigEndian(b)
    ensures k < |a| && a[k] < b[k] && forall j :: 0 <= j < k ==> a[j] == b[j]
  {
    var n := |a| - 1;
    if BigEndian(a[..n]) < BigEndian(b[..n]) {
      k := EndianBefore(a[..n], b[..n]);
      assert a[k] == a[..n][k] && b[k] == b[..n][k];
      assert forall j :: 0 <= j < k ==> a[..n][j] == a[j] && b[..n][j] == b[j];
    } else {
      EndianBack(a[..n]);
      EndianBack(b[..n]);
      SameHead(BigEndian(a[..n]), BigEndian(b[..n]), a[n], b[n]);
      assert a[..n] == b[..n];
      assert forall j :: 0 <= j < n ==> a[..n][j] == a[j] && b[..n][j] == b[j];
      k := n;
    }
  }

  lemma SameHead(x: nat, y: nat, c: Byte, d: Byte)
    requires x >= y && x * 256 + c < y * 256 + d
    ensures x == y && c < d
  {
  }

  // ---------------------------------------------------------------- uint80

  lemma Powers()
    ensures Pow256(2) == High && Pow256(8) == Word && Pow256(10) == Limit && Pow256(6) == BigTime
  {
    assert Pow256(4) == 0x1_0000_0000;
    assert Pow256(6) == BigTime;
    assert Pow256(8) == Word;
  }

  /** SetBytes: the number is in two words. */
  lemma TwoWords(bs: seq<Byte>)
    requires |bs| == 10
    ensures BigEndian(bs) == BigEndian(bs[..2]) * Word + BigEndian(bs[2..])
    ensures BigEndian(bs[..2]) < High && BigEndian(bs[2..]) < Word && BigEndian(bs) < Limit
  {
    assert bs[..2] + bs[2..] == bs;
    EndianJoins(bs[..2], bs[2..]);
    BelowPow(bs[..2]);
    BelowPow(bs[2..]);
    BelowPow(bs);
    Powers();
    hide BigEndian, Pow256;
  }

  /** AppendTo: the two words make up the bytes. */
  lemma WordBytes(hi: nat, lo: nat)
    requires hi < High && lo < Word
    ensures ToBytes(hi, 2) + ToBytes(lo, 8) == ToBytes(hi * Word + lo, 10)
  {
    Powers();
    hide BigEndian, Pow256, ToBytes;
    var bs := ToBytes(hi, 2) + ToBytes(lo, 8);
    BytesBack(hi, 2);
    BytesBack(lo, 8);
    EndianJoins(ToBytes(hi, 2), ToBytes(lo, 8));
    assert Times(hi, Word) == hi * Word;
    EndianBack(bs);
  }

  lemma ZeroWords(hi: nat, lo: nat)
    ensures hi == 0 && lo == 0 <==> hi * Word + lo == 0
  {
  }

  lemma SumFits(v: nat, n: nat)
    requires v + n < Limit
    ensures (v + n) % Limit == v + n
  {
  }

  lemma JoinedWords(hi: nat, lo: nat)
    requires hi < High && lo < Word
    ensures var bs := ToBytes(hi, 2) + ToBytes(lo, 8); |bs| == 10 && BigEndian(bs) == hi * Word + lo
  {
    WordBytes(hi, lo);
    Powers();
    hide BigEndian, Pow256, ToBytes;
    BytesBack(hi * Word + lo, 10);
  }

  /** There is nothing to increase. */
  predicate Renews(number: nat, ms: nat, now: nat) { number == 0 || ms != now }

  ghost predicate Renewed(number: nat, ms: nat, now: nat, read: Option<seq<Byte>>, r: Outcome<seq<Byte>, ReadError>, number': nat, ms': nat)
  {
    if read.None? then r == Err(ReadFails) && ms' == ms && number' == number
    else r == Ok(read.value) && ms' == now && number' == BigEndian(read.value)
  }

  /** The number has grown by 1 up to the largest increment, or does not fit any more, or nothing was read. */
  ghost predicate Increased(number: nat, inc: nat, r: Outcome<seq<Byte>, ReadError>, number': nat)
  {
    var most := if inc <= 1 then 1 else inc;
    match r
    case Ok(bs) => |bs| == 10 && BigEndian(bs) == number' && 1 <= number' - number <= most
    case Err(ReadFails) => number' == number
    case Err(MonotonicOverflow) => number + most >= Limit
    case Err(_) => false
  }

  datatype ReadError = ReadFails | MonotonicOverflow | TimeTooBig

  // ---------------------------------------------------------------- one call, on numbers

  /** What the source keeps between two calls. */
  datatype Held = Held(ms: nat, number: nat)

  /** What the readers deliver during one call. */
  datatype Reading = Reading(read: Option<seq<Byte>>, candidates: seq<nat>)

  predicate Whole(rd: Reading) { rd.read.Some? ==> |rd.read.value| == 10 }

  /** random: one more than the first candidate that is not 0 and below inc. */
  function Increment(candidates: seq<nat>, inc: nat): (n: Option<nat>)
    ensures n.Some? ==> 1 <= n.value && (n.value <= inc || n.value == 1)
  {
    if inc <= 1 then Some(1)
    else if candidates == [] then None
    else if candidates[0] != 0 && candidates[0] < inc then Some(1 + candidates[0])
    else Increment(candidates[1..], inc)
  }

  /** The number of the next entropy, and what is held then. */
  function NextNumber(h: Held, inc: nat, now: nat, rd: Reading): (r: (Outcome<nat, ReadError>, Held))
    ensures r.0.Ok? ==> r.1 == Held(now, r.0.value)
  {
    if Renews(h.number, h.ms, now) then
      if rd.read.None? then (Err(ReadFails), h)
      else (Ok(BigEndian(rd.read.value)), Held(now, BigEndian(rd.read.value)))
    else
      var n := Increment(rd.candidates, inc);
      if n.None? then (Err(ReadFails), h)
      else if h.number + n.value >= Limit then (Err(MonotonicOverflow), h.(number := (h.number + n.value) % Limit))
      else (Ok(h.number + n.value), h.(number := h.number + n.value))
  }

  function NextId(h: Held, inc: nat, now: nat, rd: Reading): (Outcome<seq<bv8>, ReadError>, Held)
  {
    if now >= BigTime then (Err(TimeTooBig), h)
    else
      var (r, h') := NextNumber(h, inc, now, rd);
      (if r.Ok? then Ok(Id(now, r.value)) else Err(r.error), h')
  }

  /** The calls of one millisecond, one after the other. */
  function Replay(h: Held, inc: nat, now: nat, rds: seq<Reading>): (rs: seq<Outcome<seq<bv8>, ReadError>>)
    ensures |rs| == |rds|
    decreases |rds|
  {
    if rds == [] then []
    else
      var (r, h') := NextId(h, inc, now, rds[0]);
      [r] + Replay(h', inc, now, rds[1..])
  }

  function HeldAfter(h: Held, inc: nat, now: nat, rds: seq<Reading>): Held
    decreases |rds|
  {
    if rds == [] then h else HeldAfter(NextId(h, inc, now, rds[0]).1, inc, now, rds[1..])
  }

  class MonotonicEntropy {
    const inc: nat
    var ms: nat
    var hi: nat
    var lo: nat

    ghost predicate Valid()
      reads this
    {
      hi < High && lo < Word && inc < Word
    }

    /** The entropy of the last identifier. */
    ghost function Number(): nat
      reads this
    {
      hi * Word + lo
    }

    ghost function Now(): Held
      reads this
    {
      Held(ms, Number())
    }

    constructor (i: nat)
      requires i < Word
      ensures Valid() && Number() == 0 && ms == 0 && inc == if i == 0 then 0xFFFF_FFFF else i
    {
      inc := if i == 0 then 0xFFFF_FFFF else i;
      ms, hi, lo := 0, 0, 0;
    }

    /** uint80.Add: overflows exactly when the sum needs more than 80 bits. */
    method Add(n: nat) returns (overflow: bool)
      requires Valid() && n < Word
      modifies this`hi, this`lo
      ensures Valid() && Number() == (old(Number()) + n) % Limit
      ensures overflow <==> old(Number()) + n >= Limit
    {
      var before, carry := lo, hi;
      lo := (lo + n) % Word;
      if lo < before {
        hi := (hi + 1) % High;
      }
      overflow := hi < carry;
      Carried(carry, before, n);
    }

    /** Candidate k is the first one that is not 0 and below inc. */
    static ghost predicate Chosen(candidates: seq<nat>, inc: nat, k: nat)
    {
      k < |candidates| && 0 < candidates[k] < inc && forall j :: 0 <= j < k ==> candidates[j] == 0 || candidates[j] >= inc
    }

    /** random: the first candidate that is not 0 and below inc, plus one; nothing when the reader fails before. */
    method Random(candidates: seq<nat>) returns (n: Option<nat>)
      requires Valid()
      ensures n.Some? ==> 1 <= n.value < Word && (n.value <= inc || n.value == 1)
      ensures n.None? ==> inc > 1 && forall c :: c in candidates ==> c == 0 || c >= inc
      ensures n == Increment(candidates, inc)
      ensures n.Some? ==> (n == Some(1) && inc <= 1) || exists k: nat :: Chosen(candidates, inc, k) && n.value == 1 + candidates[k]
    {
      if inc <= 1 {
        return Some(1);
      }
      for i := 0 to |candidates|
        invariant forall j :: 0 <= j < i ==> candidates[j] == 0 || candidates[j] >= inc
        invariant Increment(candidates, inc) == Increment(candidates[i..], inc)
      {
        ghost var more := candidates[i..];
        assert more[0] == candidates[i] && more[1..] == candidates[i + 1..];
        if candidates[i] != 0 && candidates[i] < inc {
          assert Chosen(candidates, inc, i);
          return Some(1 + candidates[i]);
        }
      }
      return None;
    }

    /** MonotonicRead: new entropy in another millisecond or after 0; otherwise the last one, increased. */
    method MonotonicRead(now: nat, read: Option<seq<Byte>>, candidates: seq<nat>) returns (r: Outcome<seq<Byte>, ReadError>)
      requires Valid() && (read.Some? ==> |read.value| == 10)
      modifies this`ms, this`hi, this`lo
      ensures Valid()
      ensures Renews(old(Number()), old(ms), now) ==> Renewed(old(Number()), old(ms), now, read, r, Number(), ms)
      ensures !Renews(old(Number()), old(ms), now) ==> ms == now && Increased(old(Number()), inc, r, Number())
      ensures var (n, h) := NextNumber(old(Now()), inc, now, Reading(read, candidates));
        Now() == h && r == if n.Ok? then Ok(ToBytes(n.value, 10)) else Err(n.error)
    {
      hide BigEndian, ToBytes, Pow256;
      ZeroWords(hi, lo);
      if !(hi == 0 && lo == 0) && ms == now {
        var n := Random(candidates);
        if n.None? {
          return Err(ReadFails);
        }
        var overflow := Add(n.value);
        if overflow {
          return Err(MonotonicOverflow);
        }
        WordBytes(hi, lo);
        JoinedWords(hi, lo);
        SumFits(old(Number()), n.value);
        return Ok(ToBytes(hi, 2) + ToBytes(lo, 8));
      }
      if read.None? {
        return Err(ReadFails);
      }
      ms := now;
      TwoWords(read.value);
      EndianBack(read.value);
      hi, lo := BigEndian(read.value[..2]), BigEndian(read.value[2..]);
      return Ok(read.value);
    }

    /** New: the time in six bytes, then the entropy. */
    method New(now: nat, read: Option<seq<Byte>>, candidates: seq<nat>) returns (r: Outcome<seq<bv8>, ReadError>)
      requires Valid() && (read.Some? ==> |read.value| == 10)
      modifies this`ms, this`hi, this`lo
      ensures Valid()
      ensures r == Err(TimeTooBig) <==> now >= BigTime
      ensures r.Ok? ==> r.value == Id(now, Number()) && ms == now
      ensures r.Ok? && !Renews(old(Number()), old(ms), now) ==> Number() > old(Number())
      ensures Renews(old(Number()), old(ms), now) && now < BigTime ==>
        (r.Ok? <==> read.Some?) && (r.Ok? ==> Number() == BigEndian(read.value))
      ensures (r, Now()) == NextId(old(Now()), inc, now, Reading(read, candidates))
      ensures r.Ok? ==> |r.value| == 16 && Milliseconds(r.value) == now && Entropy(r.value) == Number()
    {
      NumberBelow(hi, lo);
      NextSays(Now(), inc, now, Reading(read, candidates));
      hide BigEndian, ToBytes, Milliseconds, Entropy;
      if now >= BigTime {
        return Err(TimeTooBig);
      }
      var entropy := MonotonicRead(now, read, candidates);
      if entropy.Err? {
        return Err(entropy.error);
      }
      return Ok(Bits(ToBytes(now, 6) + entropy.value));
    }

    /** One identifier after the other, within one millisecond. */
    method Several(now: nat, rds: seq<Reading>) returns (rs: seq<Outcome<seq<bv8>, ReadError>>)
      requires Valid() && forall k :: 0 <= k < |rds| ==> Whole(rds[k])
      modifies this`ms, this`hi, this`lo
      ensures Valid() && rs == Replay(old(Now()), inc, now, rds) && Now() == HeldAfter(old(Now()), inc, now, rds)
      ensures old(Number()) != 0 && old(ms) == now ==> Rises(Id(now, old(Number())), rs)
    {
      hide NextId, Rises, Id;
      ghost var h := Now();
      rs := [];
      for k := 0 to |rds|
        invariant Valid() && |rs| == k
        invariant rs + Replay(Now(), inc, now, rds[k..]) == Replay(h, inc, now, rds)
        invariant HeldAfter(Now(), inc, now, rds[k..]) == HeldAfter(h, inc, now, rds)
      {
        ghost var more := rds[k..];
        ghost var was := Now();
        assert more[0] == rds[k] && more[1..] == rds[k + 1..];
        var r := New(now, rds[k].read, rds[k].candidates);
        Appended(rs, r, Replay(Now(), inc, now, more[1..]));
        rs := rs + [r];
      }
      if h.number != 0 && h.ms == now {
        ReplayRises(h, inc, now, rds);
      }
    }
  }

  lemma NumberBelow(hi: nat, lo: nat)
    requires hi < High && lo < Word
    ensures hi * Word + lo < Limit
  {
  }

  /** An identifier says its time and the entropy held behind it. */
  lemma NextSays(h: Held, inc: nat, now: nat, rd: Reading)
    requires h.number < Limit && Whole(rd)
    ensures var (r, h') := NextId(h, inc, now, rd); r.Ok? ==> |r.value| == 16 && Milliseconds(r.value) == now && Entropy(r.value) == h'.number
  {
    var (r, h') := NextNumber(h, inc, now, rd);
    if r.Ok? && now < BigTime {
      if rd.read.Some? {
        BelowPow(rd.read.value);
        Powers();
      }
      hide BigEndian, Milliseconds, Entropy, Id;
      IdSays(now, r.value);
    }
  }

  lemma Carried(hi: nat, lo: nat, n: nat)
    requires hi < High && lo < Word && n < Word
    ensures
      var lo' := (lo + n) % Word;
      var hi' := if lo' < lo then (hi + 1) % High else hi;
      && hi' * Word + lo' == (hi * Word + lo + n) % Limit
      && (hi' < hi <==> hi * Word + lo + n >= Limit)
  {
  }

  // ---------------------------------------------------------------- identifiers

  function Bits(bs: seq<Byte>): (id: seq<bv8>)
    ensures |id| == |bs| && forall k :: 0 <= k < |bs| ==> id[k] == bs[k] as bv8
  {
    seq(|bs|, k requires 0 <= k < |bs| => bs[k] as bv8)
  }

  /** The identifier of a millisecond and an entropy. */
  function Id(now: nat, entropy: nat): (id: seq<bv8>)
    ensures |id| == 16
  {
    Bits(ToBytes(now, 6) + ToBytes(entropy, 10))
  }

  // ---------------------------------------------------------------- what an identifier says

  /** The time: the first six bytes, the highest first. */
  function Milliseconds(id: seq<bv8>): nat
    requires |id| == 16
  {
    id[0] as nat * 0x100_0000_0000 + id[1] as nat * 0x1_0000_0000 + id[2] as nat * 0x100_0000 + id[3] as nat * 0x1_0000
    + id[4] as nat * 0x100 + id[5] as nat
  }

  /** The entropy: the other ten. */
  function Entropy(id: seq<bv8>): nat
    requires |id| == 16
  {
    (id[6] as nat * 0x100 + id[7] as nat) * Word
    + id[8] as nat * 0x100_0000_0000_0000 + id[9] as nat * 0x1_0000_0000_0000 + id[10] as nat * 0x100_0000_0000
    + id[11] as nat * 0x1_0000_0000 + id[12] as nat * 0x100_0000 + id[13] as nat * 0x1_0000 + id[14] as nat * 0x100 + id[15] as nat
  }

  lemma ByteOf(v: bv8)
    ensures 0 <= v as int < 256
  {
  }

  function Numbers(id: seq<bv8>): (bs: seq<Byte>)
    ensures |bs| == |id|
  {
    seq(|id|, k requires 0 <= k < |id| => ByteNumber(id[k]))
  }

  function ByteNumber(v: bv8): Byte
  {
    ByteOf(v);
    v as int
  }

  lemma NumbersBits(bs: seq<Byte>)
    ensures Numbers(Bits(bs)) == bs
  {
    forall k | 0 <= k < |bs|
      ensures ByteNumber(bs[k] as bv8) == bs[k]
    {
      ByteBits(bs[k]);
    }
  }

  lemma {:induction false} EndianUp(bs: seq<Byte>, k: nat)
    requires k < |bs|
    ensures BigEndian(bs[..k + 1]) == BigEndian(bs[..k]) * 256 + bs[k] && BigEndian(bs[..0]) == 0
  {
    assert bs[..k + 1][..k] == bs[..k];
  }

  lemma SixBytes(bs: seq<Byte>)
    requires |bs| == 6
    ensures BigEndian(bs) == bs[0] as nat * 0x100_0000_0000 + bs[1] as nat * 0x1_0000_0000 + bs[2] as nat * 0x100_0000 + bs[3] as nat * 0x1_0000 + bs[4] as nat * 0x100 + bs[5] as nat
  {
    assert bs[..6] == bs;
    EndianUp(bs, 0);
    EndianUp(bs, 1);
    EndianUp(bs, 2);
    EndianUp(bs, 3);
    EndianUp(bs, 4);
    EndianUp(bs, 5);
    hide BigEndian;
  }

  lemma EightBytes(bs: seq<Byte>)
    requires |bs| == 8
    ensures BigEndian(bs) == bs[0] as nat * 0x100_0000_0000_0000 + bs[1] as nat * 0x1_0000_0000_0000 + bs[2] as nat * 0x100_0000_0000 + bs[3] as nat * 0x1_0000_0000
      + bs[4] as nat * 0x100_0000 + bs[5] as nat * 0x1_0000 + bs[6] as nat * 0x100 + bs[7] as nat
  {
    assert bs[..8] == bs;
    EndianUp(bs, 0);
    EndianUp(bs, 1);
    EndianUp(bs, 2);
    EndianUp(bs, 3);
    EndianUp(bs, 4);
    EndianUp(bs, 5);
    EndianUp(bs, 6);
    EndianUp(bs, 7);
    hide BigEndian;
  }

  lemma TwoBytes(bs: seq<Byte>)
    requires |bs| == 2
    ensures BigEndian(bs) == bs[0] as nat * 0x100 + bs[1] as nat
  {
    assert bs[..2] == bs;
    EndianUp(bs, 0);
    EndianUp(bs, 1);
  }

  /** Both parts as numbers of their bytes. */
  lemma PartsAre(id: seq<bv8>)
    requires |id| == 16
    ensures Milliseconds(id) == BigEndian(Numbers(id)[..6]) && Entropy(id) == BigEndian(Numbers(id)[6..])
  {
    var bs := Numbers(id);
    SixBytes(bs[..6]);
    var e := bs[6..];
    TwoWords(e);
    TwoBytes(e[..2]);
    EightBytes(e[2..]);
    hide BigEndian;
    assert forall k :: 0 <= k < 16 ==> bs[k] == id[k] as nat;
  }

  /** Time and entropy of an identifier are those it was made of. */
  lemma IdSays(now: nat, entropy: nat)
    requires now < BigTime && entropy < Limit
    ensures Milliseconds(Id(now, entropy)) == now && Entropy(Id(now, entropy)) == entropy
  {
    Powers();
    BytesBack(now, 6);
    BytesBack(entropy, 10);
    var a, b := ToBytes(now, 6), ToBytes(entropy, 10);
    hide BigEndian, Pow256, ToBytes, Milliseconds, Entropy;
    NumbersBits(a + b);
    assert (a + b)[..6] == a && (a + b)[6..] == b;
    PartsAre(Id(now, entropy));
  }

  lemma PartsBelow(id: seq<bv8>)
    requires |id| == 16
    ensures Entropy(id) < Limit
  {
    PartsAre(id);
    BelowPow(Numbers(id)[6..]);
    Powers();
    hide BigEndian, Pow256, Numbers;
  }

  lemma WholeNumber(id: seq<bv8>)
    requires |id| == 16
    ensures BigEndian(Numbers(id)) == Milliseconds(id) * Limit + Entropy(id)
  {
    PartsAre(id);
    var bs := Numbers(id);
    assert bs == bs[..6] + bs[6..];
    EndianJoins(bs[..6], bs[6..]);
    Powers();
    hide BigEndian, Pow256, Numbers, Milliseconds, Entropy;
    assert Times(Milliseconds(id), Limit) == Milliseconds(id) * Limit;
  }

  lemma SmallerBefore(a: seq<bv8>, b: seq<bv8>)
    requires |a| == |b| == 16 && BigEndian(Numbers(a)) < BigEndian(Numbers(b))
    ensures Before(a, b)
  {
    var p, q := Numbers(a), Numbers(b);
    var k := EndianBefore(p, q);
    forall j | 0 <= j < 16
      ensures a[j] == p[j] as bv8 && b[j] == q[j] as bv8
    {
      BackToBits(a[j]);
      BackToBits(b[j]);
    }
    BitsRise(p[k], q[k]);
    assert BeforeAt(a, b, k);
  }

  lemma BackToBits(v: bv8)
    ensures ByteNumber(v) as bv8 == v
  {
  }

  lemma SameNumber(a: seq<bv8>, b: seq<bv8>)
    requires |a| == |b| == 16 && BigEndian(Numbers(a)) == BigEndian(Numbers(b))
    ensures a == b
  {
    EndianBack(Numbers(a));
    EndianBack(Numbers(b));
    hide BigEndian, ToBytes;
    assert Numbers(a) == Numbers(b);
    forall j | 0 <= j < 16
      ensures a[j] == b[j]
    {
      BackToBits(a[j]);
      BackToBits(b[j]);
      assert Numbers(a)[j] == Numbers(b)[j];
    }
  }

  lemma NotBoth(a: seq<bv8>, b: seq<bv8>)
    requires Before(a, b)
    ensures a != b && !Before(b, a)
  {
    var k :| BeforeAt(a, b, k);
    forall j
      ensures !BeforeAt(b, a, j)
    {
    }
  }

  lemma Lexicographic(x: nat, v: nat, y: nat, w: nat)
    requires v < Limit && w < Limit
    ensures x * Limit + v < y * Limit + w <==> x < y || (x == y && v < w)
  {
    if x < y {
      assert (x + 1) * Limit <= y * Limit;
    } else if y < x {
      assert (y + 1) * Limit <= x * Limit;
    }
  }

  /** Identifiers and their texts are ordered by time, and by entropy within one millisecond. */
  lemma OrderedByTime(a: seq<bv8>, b: seq<bv8>)
    requires |a| == |b| == 16
    ensures Before(a, b) <==> Milliseconds(a) < Milliseconds(b) || (Milliseconds(a) == Milliseconds(b) && Entropy(a) < Entropy(b))
    ensures Before(a, b) <==> Sorts(Text(a), Text(b))
  {
    WholeNumber(a);
    WholeNumber(b);
    PartsBelow(a);
    PartsBelow(b);
    TextOrder(a, b);
    hide BigEndian, Numbers, Milliseconds, Entropy, Before, Sorts, Text;
    Lexicographic(Milliseconds(a), Entropy(a), Milliseconds(b), Entropy(b));
    var m, n := BigEndian(Numbers(a)), BigEndian(Numbers(b));
    if m < n {
      SmallerBefore(a, b);
    } else if n < m {
      SmallerBefore(b, a);
      NotBoth(b, a);
    } else {
      SameNumber(a, b);
      NotBefore(a);
    }
  }

  // ---------------------------------------------------------------- identifiers rise

  lemma BitsRise(a: Byte, b: Byte)
    requires a < b
    ensures a as bv8 < b as bv8
  {
    ByteBits(a);
    ByteBits(b);
    Larger(a as bv8, b as bv8);
  }

  /** More entropy in one millisecond: a later identifier, and a later text. */
  lemma IdsRise(now: nat, v: nat, w: nat)
    requires v < w < Limit
    ensures Before(Id(now, v), Id(now, w)) && Sorts(Text(Id(now, v)), Text(Id(now, w)))
  {
    Powers();
    BytesBack(v, 10);
    BytesBack(w, 10);
    var a, b := ToBytes(v, 10), ToBytes(w, 10);
    var k := EndianBefore(a, b);
    hide *;
    BitsBefore(ToBytes(now, 6), a, b, k);
    TextOrder(Id(now, v), Id(now, w));
  }

  lemma BitsBefore(head: seq<Byte>, a: seq<Byte>, b: seq<Byte>, k: nat)
    requires |a| == |b| && k < |a| && a[k] < b[k] && forall j :: 0 <= j < k ==> a[j] == b[j]
    ensures Before(Bits(head + a), Bits(head + b))
  {
    BitsRise(a[k], b[k]);
    var n := |head| + k;
    forall j | 0 <= j < n
      ensures (head + a)[j] == (head + b)[j]
    {
    }
    FirstBits(head + a, head + b, n);
    assert BeforeAt(Bits(head + a), Bits(head + b), n);
  }

  lemma FirstBits(p: seq<Byte>, q: seq<Byte>, n: nat)
    requires n < |p| == |q| && forall j :: 0 <= j < n ==> p[j] == q[j]
    ensures forall j :: 0 <= j < n ==> Bits(p)[j] == Bits(q)[j]
  {
  }

  lemma Appended<T>(a: seq<T>, x: T, b: seq<T>)
    ensures a + ([x] + b) == a + [x] + b
  {
  }

  /** No call before the j-th one overflows. */
  ghost predicate NoOverflow(rs: seq<Outcome<seq<bv8>, ReadError>>, j: nat)
  {
    forall k :: 0 <= k < j && k < |rs| ==> rs[k] != Err(MonotonicOverflow)
  }

  ghost predicate Later(a: seq<bv8>, b: seq<bv8>)
  {
    |a| == |b| == 16 && Before(a, b) && Sorts(Text(a), Text(b))
  }

  /** Up to an overflow every identifier comes after all earlier ones, and after id, and so do the texts. */
  ghost predicate Rises(id: seq<bv8>, rs: seq<Outcome<seq<bv8>, ReadError>>)
  {
    && (forall j :: 0 <= j < |rs| && rs[j].Ok? && NoOverflow(rs, j) ==> Later(id, rs[j].value))
    && (forall i, j :: 0 <= i < j < |rs| && rs[i].Ok? && rs[j].Ok? && NoOverflow(rs, j) ==> Later(rs[i].value, rs[j].value))
  }

  lemma NoneLater(rs: seq<Outcome<seq<bv8>, ReadError>>, j: nat)
    requires NoOverflow(rs, j) && 0 < j < |rs|
    ensures NoOverflow(rs[1..], j - 1)
  {
  }

  lemma NumberGrows(h: Held, inc: nat, now: nat, rd: Reading)
    requires 0 < h.number < Limit && h.ms == now
    ensures var (r, h') := NextId(h, inc, now, rd);
      && (r.Ok? ==> h.number < h'.number < Limit && r.value == Id(now, h'.number))
      && (r.Err? && r != Err(MonotonicOverflow) ==> h' == h) && h'.ms == now
  {
    hide Id;
  }

  /** An identifier of a run is that of a larger number than the one held at the start. */
  lemma {:induction false} RunGrows(h: Held, inc: nat, now: nat, rds: seq<Reading>, j: nat) returns (v: nat)
    requires 0 < h.number < Limit && h.ms == now && j < |rds|
    requires Replay(h, inc, now, rds)[j].Ok? && NoOverflow(Replay(h, inc, now, rds), j)
    ensures h.number < v < Limit && Replay(h, inc, now, rds)[j] == Ok(Id(now, v))
    decreases |rds|
  {
    hide NextId, Id;
    var rs := Replay(h, inc, now, rds);
    NumberGrows(h, inc, now, rds[0]);
    var h' := NextId(h, inc, now, rds[0]).1;
    if j == 0 {
      v := h'.number;
    } else {
      assert rs[0] != Err(MonotonicOverflow);
      NoneLater(rs, j);
      v := RunGrows(h', inc, now, rds[1..], j - 1);
    }
  }

  lemma LaterId(now: nat, v: nat, w: nat)
    requires v < w < Limit
    ensures Later(Id(now, v), Id(now, w))
  {
    IdsRise(now, v, w);
  }

  /** Of any two identifiers of a run within one millisecond, after an entropy that is not 0, the later one
      is larger, as bytes and as a text, whatever is read, as long as no call has overflowed. */
  lemma {:induction false} RunRises(h: Held, inc: nat, now: nat, rds: seq<Reading>, i: nat, j: nat)
    requires 0 < h.number < Limit && h.ms == now && i < j < |rds|
    requires var rs := Replay(h, inc, now, rds); rs[i].Ok? && rs[j].Ok? && NoOverflow(rs, j)
    ensures Later(Replay(h, inc, now, rds)[i].value, Replay(h, inc, now, rds)[j].value)
    decreases |rds|
  {
    hide NextId, Id, Later;
    var rs := Replay(h, inc, now, rds);
    NumberGrows(h, inc, now, rds[0]);
    var h' := NextId(h, inc, now, rds[0]).1;
    assert rs[0] != Err(MonotonicOverflow);
    NoneLater(rs, j);
    if i == 0 {
      var v := RunGrows(h', inc, now, rds[1..], j - 1);
      LaterId(now, h'.number, v);
    } else {
      RunRises(h', inc, now, rds[1..], i - 1, j - 1);
    }
  }

  lemma ReplayRises(h: Held, inc: nat, now: nat, rds: seq<Reading>)
    requires 0 < h.number < Limit && h.ms == now
    ensures Rises(Id(now, h.number), Replay(h, inc, now, rds))
  {
    hide Later, Replay, Id, NoOverflow;
    var rs := Replay(h, inc, now, rds);
    forall j | 0 <= j < |rs| && rs[j].Ok? && NoOverflow(rs, j)
      ensures Later(Id(now, h.number), rs[j].value)
    {
      var v := RunGrows(h, inc, now, rds, j);
      LaterId(now, h.number, v);
    }
    forall i, j | 0 <= i < j < |rs| && rs[i].Ok? && rs[j].Ok? && NoOverflow(rs, j)
      ensures Later(rs[i].value, rs[j].value)
    {
      RunRises(h, inc, now, rds, i, j);
    }
  }

  /** The next identifier of the same millisecond comes after the last one, whatever is read. */
  ghost predicate AlwaysRises(h: Held, inc: nat)
  {
    forall rd :: Whole(rd) && NextId(h, inc, h.ms, rd).0.Ok? ==> Before(Id(h.ms, h.number), NextId(h, inc, h.ms, rd).0.value)
  }

  /** That is so if and only if the entropy of the last one is not 0. */
  lemma RisesExactly(h: Held, inc: nat)
    requires h.number < Limit && h.ms < BigTime
    ensures AlwaysRises(h, inc) <==> h.number != 0
  {
    hide Id, Before, BigEndian;
    if h.number == 0 {
      var rd := Reading(Some([0, 0, 0, 0, 0, 0, 0, 0, 0, 0]), []);
      Zeros(rd.read.value);
      NotBefore(Id(h.ms, 0));
      assert NextId(h, inc, h.ms, rd).0 == Ok(Id(h.ms, 0));
    } else {
      forall rd | Whole(rd) && NextId(h, inc, h.ms, rd).0.Ok?
        ensures Before(Id(h.ms, h.number), NextId(h, inc, h.ms, rd).0.value)
      {
        NumberGrows(h, inc, h.ms, rd);
        IdsRise(h.ms, h.number, NextId(h, inc, h.ms, rd).1.number);
      }
    }
  }

  lemma NotBefore(id: seq<bv8>)
    ensures !Before(id, id)
  {
  }

  /** An overflow leaves the sum without its 81st bit: less than before, and unless that is 0 the next
      identifier of the millisecond comes before the last one that was given out. */
  lemma OverflowFalls(h: Held, inc: nat, now: nat, rd: Reading, next: Reading)
    requires 0 < h.number < Limit && inc < Word && NextId(h, inc, now, rd).0 == Err(MonotonicOverflow)
    ensures var h' := NextId(h, inc, now, rd).1;
      && h'.ms == now && h'.number < h.number
      && (h'.number != 0 && NextId(h', inc, now, next).0.Ok? ==> Before(NextId(h', inc, now, next).0.value, Id(now, h.number)))
  {
    hide Id, Before, BigEndian;
    var h' := NextId(h, inc, now, rd).1;
    Wrapped(h.number, Increment(rd.candidates, inc).value);
    if h'.number != 0 && NextId(h', inc, now, next).0.Ok? {
      IdsRise(now, NextId(h', inc, now, next).1.number, h.number);
    }
  }

  lemma Wrapped(v: nat, n: nat)
    requires v < Limit && n < Limit && v + n >= Limit
    ensures (v + n) % Limit == v + n - Limit
  {
  }

  /** After entropy 0 nothing keeps the same identifier from coming again. */
  method ZeroComesAgain() returns (a: Outcome<seq<bv8>, ReadError>, b: Outcome<seq<bv8>, ReadError>)
    ensures a.Ok? && a == b
  {
    hide ToBytes, Bits;
    var zero: seq<Byte> := [0, 0, 0, 0, 0, 0, 0, 0, 0, 0];
    Zeros(zero);
    var m := new MonotonicEntropy(1);
    a := m.New(7, Some(zero), []);
    b := m.New(7, Some(zero), []);
  }

  lemma Zeros(bs: seq<Byte>)
    requires forall i :: 0 <= i < |bs| ==> bs[i] == 0
    ensures BigEndian(bs) == 0
  {
  }
}
