/** The Bech32 codec of internal/bech32/bech32.go (BIP 173): convertBits, Encode and Decode, over
    ASCII strings. */
module Bech32 {
  import opened Wrappers
  import opened Arith
  import opened Bytes

  datatype Error =
    | BadRange | IllegalPadding | NonZeroPadding
    | EmptyHrp | BadHrpCharacter | MixedCase
    | BadSeparator | BadDataCharacter | BadChecksum

  type Result<T> = Outcome<T, Error>

  // ---------------------------------------------------------------- numbers

  /** The number whose digits in base 2^w are s. */
  function Number(s: seq<Byte>, w: nat): nat
  {
    if s == [] then 0 else Times(Number(s[..|s| - 1], w), Pow2(w)) + s[|s| - 1]
  }

  ghost predicate Below(s: seq<Byte>, w: nat)
  {
    forall i :: 0 <= i < |s| ==> s[i] < Pow2(w)
  }

  lemma NumberSnoc(s: seq<Byte>, w: nat, v: Byte)
    ensures Number(s + [v], w) == Times(Number(s, w), Pow2(w)) + v
  {
    hide Times;
    assert (s + [v])[..|s|] == s;
  }

  lemma {:induction false} NumberInjective(a: seq<Byte>, b: seq<Byte>, w: nat)
    requires |a| == |b| && Below(a, w) && Below(b, w) && Number(a, w) == Number(b, w)
    ensures a == b
    decreases |a|
  {
    if a != [] {
      var n := |a| - 1;
      ModUnique(Number(a, w), Pow2(w), Number(a[..n], w), a[n]);
      ModUnique(Number(b, w), Pow2(w), Number(b[..n], w), b[n]);
      NumberInjective(a[..n], b[..n], w);
    }
  }

  // ---------------------------------------------------------------- convertBits on 32-bit words

  const Wrap: nat := 0x1_0000_0000

  /** acc<<from | value on 32 bits, for a value below 2^from. */
  function Shifted(acc: nat, from: nat, value: nat): (r: nat)
    ensures r < Wrap
  {
    (acc * Pow2(from) + value) % Wrap
  }

  /** byte(acc>>bits) & maxv */
  function Group(acc: nat, bits: nat, to: nat): Byte
    requires to <= 8
  {
    ByteWide(to);
    Pow2Positive(bits);
    (acc / Pow2(bits)) % 256 % Pow2(to)
  }

  /** byte(acc<<(to-bits)) & maxv */
  function FinalGroup(acc: nat, bits: nat, to: nat): Byte
    requires bits < to <= 8
  {
    ByteWide(to);
    (acc * Pow2(to - bits)) % Wrap % 256 % Pow2(to)
  }

  /** value>>from != 0 */
  predicate OutOfRange(v: Byte, from: nat)
    ensures OutOfRange(v, from) <==> v >= Pow2(from)
  {
    Pow2Positive(from);
    DivIdentity(v, Pow2(from));
    if v < Pow2(from) then
      ModUnique(v, Pow2(from), 0, v);
      v / Pow2(from) != 0
    else
      v / Pow2(from) != 0
  }

  lemma ByteWide(to: nat)
    requires to <= 8
    ensures 0 < Pow2(to) <= 256 && Pow2(to) * Pow2(8 - to) == 256
  {
    Pow2Values();
    Pow2Positive(to);
    Pow2Positive(8 - to);
    Pow2Adds(to, 8 - to);
    MulAtLeast(Pow2(8 - to), Pow2(to));
  }

  lemma WrapIsPow2(n: nat)
    requires n <= 32
    ensures Wrap == Pow2(n) * Pow2(32 - n) && Pow2(n) > 0 && Pow2(32 - n) > 0
  {
    Pow2Values();
    Pow2Adds(n, 32 - n);
    Pow2Positive(n);
    Pow2Positive(32 - n);
  }

  /** The low bits after a shift, although acc wraps at 32 bits. */
  lemma LowShifted(acc: nat, bits: nat, from: nat, v: nat)
    requires bits + from <= 32 && v < Pow2(from)
    ensures Low(Shifted(acc, from, v), bits + from) == Times(Low(acc, bits), Pow2(from)) + v
  {
    hide Pow2;
    Pow2Adds(bits, from);
    Pow2Positive(bits);
    WrapIsPow2(bits + from);
    ModWrap(acc * Pow2(from) + v, Pow2(bits + from), Pow2(32 - (bits + from)));
    ModShift(acc, Pow2(bits), Pow2(from), v);
  }

  lemma GroupArith(a: nat, p: nat, q: nat, r: nat)
    requires p > 0 && q > 0 && r > 0 && p * r == 256
    ensures p * q > 0 && (a / q) % 256 % p < p
    ensures a % (p * q) == ((a / q) % 256 % p) * q + a % q
  {
    var b := a / q;
    ModWrap(b, p, r);
    assert b % 256 % p == b % p;
    ModSplit(a, p, q);
  }

  lemma LowGroup(acc: nat, bits: nat, to: nat)
    requires to <= bits && to <= 8
    ensures Group(acc, bits - to, to) < Pow2(to)
    ensures Low(acc, bits) == Times(Group(acc, bits - to, to), Pow2(bits - to)) + Low(acc, bits - to)
  {
    hide Pow2;
    Pow2Adds(to, bits - to);
    Pow2Positive(bits - to);
    Pow2Positive(8 - to);
    ByteWide(to);
    GroupArith(acc, Pow2(to), Pow2(bits - to), Pow2(8 - to));
  }

  lemma FinalArith(a: nat, p: nat, g: nat, q: nat, r: nat)
    requires p > 0 && g > 0 && r > 0 && q == p * g && q * r == 256
    ensures q > 0 && (a * g) % Wrap % 256 % q == (a % p) * g < q
  {
    Positive(p, g);
    ModWrap(a * g, 256, 0x100_0000);
    ModWrap(a * g, q, r);
    ModShift(a, p, g, 0);
    DigitBelow(a % p, p, 0, g);
  }

  /** The last group: the remaining bits on the left, zeros on the right. */
  lemma FinalBits(acc: nat, bits: nat, to: nat)
    requires bits < to <= 8
    ensures FinalGroup(acc, bits, to) == Times(Low(acc, bits), Pow2(to - bits)) < Pow2(to)
    ensures FinalGroup(acc, bits, to) == 0 <==> Low(acc, bits) == 0
  {
    hide Pow2;
    ByteWide(to);
    Pow2Positive(bits);
    Pow2Positive(to - bits);
    Pow2Positive(8 - to);
    Pow2Adds(bits, to - bits);
    FinalArith(acc, Pow2(bits), Pow2(to - bits), Pow2(to), Pow2(8 - to));
    if Low(acc, bits) > 0 {
      Positive(Low(acc, bits), Pow2(to - bits));
    }
  }

  // ---------------------------------------------------------------- convertBits

  /** The state of the loop: the groups so far and the low bits of acc are the bits read. */
  ghost predicate Regrouping(data: seq<Byte>, from: nat, to: nat, ret: seq<Byte>, acc: nat, bits: nat)
  {
    && Below(ret, to)
    && Times(|ret|, to) + bits == Times(|data|, from)
    && Times(Number(ret, to), Pow2(bits)) + Low(acc, bits) == Number(data, from)
  }

  lemma Start(from: nat, to: nat)
    ensures Regrouping([], from, to, [], 0, 0)
  {
  }

  lemma ShiftIn(data: seq<Byte>, from: nat, to: nat, ret: seq<Byte>, acc: nat, bits: nat, v: Byte)
    requires Regrouping(data, from, to, ret, acc, bits)
    requires bits + from <= 32 && v < Pow2(from)
    ensures Regrouping(data + [v], from, to, ret, Shifted(acc, from, v), bits + from)
  {
    hide Number, Times, Low, Pow2, Shifted;
    var n := Number(ret, to);
    LowShifted(acc, bits, from, v);
    NumberSnoc(data, from, v);
    Pow2Times(bits, from);
    TimesLaws(n, Pow2(bits), Pow2(from));
    TimesLaws(Times(n, Pow2(bits)), Low(acc, bits), Pow2(from));
    TimesLaws(|data|, 1, from);
    assert |data + [v]| == |data| + 1;
  }

  lemma ShiftOut(data: seq<Byte>, from: nat, to: nat, ret: seq<Byte>, acc: nat, bits: nat)
    requires Regrouping(data, from, to, ret, acc, bits) && to <= bits && to <= 8
    ensures Regrouping(data, from, to, ret + [Group(acc, bits - to, to)], acc, bits - to)
  {
    hide Number, Times, Low, Pow2, Group;
    var q, n, g := Pow2(bits - to), Number(ret, to), Group(acc, bits - to, to);
    LowGroup(acc, bits, to);
    NumberSnoc(ret, to, g);
    Pow2Times(to, bits - to);
    TimesLaws(n, Pow2(to), q);
    TimesLaws(Times(n, Pow2(to)), g, q);
    TimesLaws(|ret|, 1, to);
    assert |ret + [g]| == |ret| + 1;
  }

  /** Regrouped with padding: the same number, filled up with zero bits to a whole group. */
  ghost predicate Padded(data: seq<Byte>, from: nat, to: nat, ret: seq<Byte>)
  {
    var k := Times(|ret|, to) - Times(|data|, from);
    Below(ret, to) && 0 <= k < to && Number(ret, to) == Times(Number(data, from), Pow2(k))
  }

  /** Regrouped without padding: the same number without its last bits, which are all zero and
      fewer than a group of either kind. */
  ghost predicate Unpadded(data: seq<Byte>, from: nat, to: nat, ret: seq<Byte>)
  {
    var k := Times(|data|, from) - Times(|ret|, to);
    Below(ret, to) && 0 <= k < from && k < to && Times(Number(ret, to), Pow2(k)) == Number(data, from)
  }

  lemma PadGroup(data: seq<Byte>, from: nat, to: nat, ret: seq<Byte>, acc: nat, bits: nat, last: Byte)
    requires Regrouping(data, from, to, ret, acc, bits) && bits < to && last < Pow2(to)
    requires last == Times(Low(acc, bits), Pow2(to - bits))
    ensures bits > 0 ==> Padded(data, from, to, ret + [last])
    ensures bits == 0 ==> Padded(data, from, to, ret)
  {
    LowZero(acc);
    hide Number, Times, Low;
    var g, n := Pow2(to - bits), Number(ret, to);
    Pow2Times(bits, to - bits);
    NumberSnoc(ret, to, last);
    TimesLaws(n, Pow2(bits), g);
    TimesLaws(Times(n, Pow2(bits)), Low(acc, bits), g);
    TimesLaws(|ret|, 1, to);
    TimesLaws(0, 0, n);
    TimesLaws(0, 0, Number(data, from));
    assert |ret + [last]| == |ret| + 1;
    assert Pow2(0) == 1;
  }

  lemma LeftOver(data: seq<Byte>, from: nat, to: nat, ret: seq<Byte>, acc: nat, bits: nat)
    requires Regrouping(data, from, to, ret, acc, bits) && bits < to
    ensures Times(|data|, from) % to == bits
  {
    ModUnique(|ret| * to + bits, to, |ret|, bits);
  }

  lemma LowZero(acc: nat)
    ensures Low(acc, 0) == 0
  {
    assert Pow2(0) == 1;
  }

  lemma DropGroup(data: seq<Byte>, from: nat, to: nat, ret: seq<Byte>, acc: nat, bits: nat)
    requires Regrouping(data, from, to, ret, acc, bits) && bits < to
    ensures bits < from && Low(acc, bits) == 0 ==> Unpadded(data, from, to, ret)
    ensures bits >= from || Low(acc, bits) != 0 ==> forall other :: !Unpadded(data, from, to, other)
  {
    hide Number, Times, Low, Pow2;
    forall other | Unpadded(data, from, to, other)
      ensures bits < from && Low(acc, bits) == 0
    {
      SameLength(|ret|, bits, |other|, Times(|data|, from) - Times(|other|, to), to);
      LowBelow(acc, bits);
      Unshifted(Number(ret, to), Number(other, to), Pow2(bits), Low(acc, bits));
    }
  }

  lemma LowBelow(acc: nat, bits: nat)
    ensures Low(acc, bits) < Pow2(bits)
  {
    Pow2Positive(bits);
  }

  lemma SameLength(a: nat, r: nat, b: nat, s: nat, to: nat)
    requires Times(a, to) + r == Times(b, to) + s && r < to && s < to
    ensures a == b && r == s
  {
    ModUnique(a * to + r, to, a, r);
    ModUnique(a * to + r, to, b, s);
  }

  lemma Unshifted(n: nat, m: nat, p: nat, low: nat)
    requires low < p && Times(n, p) + low == Times(m, p)
    ensures low == 0 && n == m
  {
    ModUnique(m * p, p, n, low);
    ModUnique(m * p, p, m, 0);
  }

  method ConvertBits(data: seq<Byte>, from: nat, to: nat, pad: bool) returns (r: Result<seq<Byte>>)
    requires 1 <= from <= 8 && 1 <= to <= 8
    ensures r == Err(BadRange) <==> !Below(data, from)
    ensures r.Err? ==> r.error in {BadRange, IllegalPadding, NonZeroPadding}
    ensures pad && Below(data, from) ==> r.Ok? && Padded(data, from, to, r.value)
    ensures !pad && r.Ok? ==> Unpadded(data, from, to, r.value)
    ensures !pad && Below(data, from) && r.Err? ==> forall ret :: !Unpadded(data, from, to, ret)
    ensures r == Err(IllegalPadding) <==> !pad && Below(data, from) && Times(|data|, from) % to >= from
  {
    hide Regrouping, Number, Padded, Unpadded, Shifted, Group, FinalGroup, Low, Times, Pow2, OutOfRange;
    var ret: seq<Byte>, acc: nat, bits: nat := [], 0, 0;
    Start(from, to);
    for i := 0 to |data|
      invariant Below(data[..i], from)
      invariant bits < to
      invariant Regrouping(data[..i], from, to, ret, acc, bits)
    {
      var value := data[i];
      assert data[..i + 1] == data[..i] + [value];
      if OutOfRange(value, from) {
        return Err(BadRange);
      }
      ShiftIn(data[..i], from, to, ret, acc, bits, value);
      acc := Shifted(acc, from, value);
      bits := bits + from;
      while bits >= to
        invariant bits < to + from
        invariant Regrouping(data[..i + 1], from, to, ret, acc, bits)
        decreases bits
      {
        ShiftOut(data[..i + 1], from, to, ret, acc, bits);
        bits := bits - to;
        ret := ret + [Group(acc, bits, to)];
      }
    }
    assert data[..|data|] == data;
    LeftOver(data, from, to, ret, acc, bits);
    FinalBits(acc, bits, to);
    var last := FinalGroup(acc, bits, to);
    PadGroup(data, from, to, ret, acc, bits, last);
    DropGroup(data, from, to, ret, acc, bits);
    if pad {
      if bits > 0 {
        ret := ret + [last];
      }
    } else if bits >= from {
      return Err(IllegalPadding);
    } else if last != 0 {
      return Err(NonZeroPadding);
    }
    return Ok(ret);
  }
}
