/** The Bech32 checksum of internal/bech32/bech32.go (BIP 173, section "Bech32"): polymod,
    hrpExpand, createChecksum and verifyChecksum.

    Symbols are 5-bit values; the checksum state is a 30-bit word.  Addition is exclusive or, and
    every step is linear in it. */
module Bech32Checksum {
  import opened Bytes

  const Generator: seq<bv32> := [0x3b6a57b2, 0x26508e6d, 0x1ea119fa, 0x3d4233dd, 0x2a1462b3]

  // ---------------------------------------------------------------- one step

  function Xor(a: bv32, b: bv32): bv32 { a ^ b }

  predicate Bit(top: bv32, i: nat)
    requires i < 5
  {
    match i
    case 0 => top & 1 == 1
    case 1 => (top >> 1) & 1 == 1
    case 2 => (top >> 2) & 1 == 1
    case 3 => (top >> 3) & 1 == 1
    case _ => (top >> 4) & 1 == 1
  }

  function Pick(bit: bool, g: bv32): bv32 { if bit then g else 0 }

  /** The generators selected by the first i of the bits shifted out. */
  function Feedback(top: bv32, i: nat): bv32
    requires i <= 5
  {
    if i == 0 then 0 else Xor(Feedback(top, i - 1), Pick(Bit(top, i - 1), Generator[i - 1]))
  }

  function Shift(chk: bv32): bv32 { (chk & 0x1ffffff) << 5 }

  /** One symbol is shifted in, and what is shifted out is reduced. */
  function Step(chk: bv32, v: bv32): bv32
  {
    Xor(Xor(Shift(chk), v), Feedback(chk >> 25, 5))
  }

  function Run(chk: bv32, vs: seq<bv32>): bv32
  {
    if vs == [] then chk else Step(Run(chk, vs[..|vs| - 1]), vs[|vs| - 1])
  }

  function Word(v: Byte): bv32 { (v as bv8) as bv32 }

  function Words(vs: seq<Byte>): (r: seq<bv32>)
    ensures |r| == |vs|
  {
    seq(|vs|, i requires 0 <= i < |vs| => Word(vs[i]))
  }

  lemma BitTest(top: bv32, i: nat)
    requires i < 5
    ensures Bit(top, i) <==> (top >> i) & 1 == 1
  {
    if i == 0 {
    } else if i == 1 {
    } else if i == 2 {
    } else if i == 3 {
    } else {
    }
  }

  lemma XorAssociative(a: bv32, b: bv32, c: bv32)
    ensures Xor(Xor(a, b), c) == Xor(a, Xor(b, c))
  {
    assert (a ^ b) ^ c == a ^ (b ^ c);
  }

  lemma XorCommutative(a: bv32, b: bv32)
    ensures Xor(a, b) == Xor(b, a)
  {
    assert a ^ b == b ^ a;
  }

  lemma XorZero(a: bv32)
    ensures Xor(a, 0) == a
  {
    assert a ^ 0 == a;
  }

  lemma XorSelf(a: bv32)
    ensures Xor(a, a) == 0
  {
    assert a ^ a == 0;
  }

  lemma XorLaws(a: bv32, b: bv32, c: bv32)
    ensures Xor(Xor(a, b), c) == Xor(a, Xor(b, c))
    ensures Xor(a, 0) == a == Xor(0, a) && Xor(a, a) == 0
    ensures Xor(a, b) == Xor(b, a) && (Xor(a, b) == 0 ==> a == b)
  {
    hide Xor;
    XorAssociative(a, b, c);
    XorZero(a);
    XorCommutative(a, 0);
    XorSelf(a);
    XorCommutative(a, b);
    if Xor(a, b) == 0 {
      XorAssociative(a, b, b);
      XorSelf(b);
      XorZero(b);
      XorCommutative(0, b);
    }
  }

  method Reduce(chk0: bv32, top: bv32) returns (chk: bv32)
    ensures chk == Xor(chk0, Feedback(top, 5))
  {
    chk := chk0;
    XorLaws(chk0, 0, 0);
    for i := 0 to 5
      invariant chk == Xor(chk0, Feedback(top, i))
    {
      hide Xor, Bit;
      var bit := (top >> i) & 1;
      BitTest(top, i);
      XorLaws(chk0, Feedback(top, i), Pick(Bit(top, i), Generator[i]));
      XorLaws(chk, 0, 0);
      if bit == 1 {
        chk := Xor(chk, Generator[i]);
      }
    }
  }

  lemma WordsPrefix(values: seq<Byte>, k: nat)
    requires k <= |values|
    ensures k == |values| ==> Words(values)[..k] == Words(values)
    ensures k < |values| ==> forall c :: Run(c, Words(values)[..k + 1]) == Step(Run(c, Words(values)[..k]), Word(values[k]))
  {
    hide Step;
    if k < |values| {
      assert Words(values)[..k + 1][..k] == Words(values)[..k];
    }
  }

  method Polymod(values: seq<Byte>) returns (chk: bv32)
    ensures chk == Run(1, Words(values))
  {
    chk := 1;
    for k := 0 to |values|
      invariant chk == Run(1, Words(values)[..k])
    {
      hide Xor, Feedback, Shift;
      WordsPrefix(values, k);
      var top := chk >> 25;
      chk := Reduce(Xor(Shift(chk), Word(values[k])), top);
    }
    WordsPrefix(values, |values|);
  }

  // ---------------------------------------------------------------- linearity

  lemma PickLinear(p: bool, q: bool, g: bv32)
    ensures Pick(p != q, g) == Xor(Pick(p, g), Pick(q, g))
  {
    if p && q {
      assert g ^ g == 0;
    } else if p {
      assert g ^ 0 == g;
    } else if q {
      assert 0 ^ g == g;
    } else {
      assert (0 as bv32) ^ 0 == 0;
    }
  }

  lemma Swap4(a: bv32, b: bv32, c: bv32, d: bv32)
    ensures Xor(Xor(a, b), Xor(c, d)) == Xor(Xor(a, c), Xor(b, d))
  {
    hide Xor;
    XorLaws(a, b, Xor(c, d));
    XorLaws(b, c, d);
    XorLaws(c, b, d);
    XorLaws(a, c, Xor(b, d));
  }

  lemma BitXor(a: bv32, b: bv32, i: nat)
    requires i < 5
    ensures Bit(Xor(a, b), i) == (Bit(a, i) != Bit(b, i))
  {
  }

  lemma {:induction false} FeedbackLinear(a: bv32, b: bv32, i: nat)
    requires i <= 5
    ensures Feedback(Xor(a, b), i) == Xor(Feedback(a, i), Feedback(b, i))
  {
    hide Pick, Bit, Xor;
    if i == 0 {
      XorLaws(0, 0, 0);
    } else {
      FeedbackLinear(a, b, i - 1);
      BitXor(a, b, i - 1);
      PickLinear(Bit(a, i - 1), Bit(b, i - 1), Generator[i - 1]);
      Swap4(Feedback(a, i - 1), Feedback(b, i - 1), Pick(Bit(a, i - 1), Generator[i - 1]), Pick(Bit(b, i - 1), Generator[i - 1]));
    }
  }

  lemma ShiftLinear(a: bv32, b: bv32)
    ensures Shift(Xor(a, b)) == Xor(Shift(a), Shift(b))
    ensures Xor(a, b) >> 25 == Xor(a >> 25, b >> 25)
  {
  }

  lemma StepLinear(a: bv32, b: bv32, u: bv32, v: bv32)
    ensures Step(Xor(a, b), Xor(u, v)) == Xor(Step(a, u), Step(b, v))
  {
    hide Feedback, Xor, Shift;
    ShiftLinear(a, b);
    FeedbackLinear(a >> 25, b >> 25, 5);
    Swap4(Shift(a), Shift(b), u, v);
    Swap4(Xor(Shift(a), u), Xor(Shift(b), v), Feedback(a >> 25, 5), Feedback(b >> 25, 5));
  }

  function Sum(us: seq<bv32>, vs: seq<bv32>): seq<bv32>
    requires |us| == |vs|
  {
    seq(|us|, i requires 0 <= i < |us| => Xor(us[i], vs[i]))
  }

  /** polymod is linear: the run of a sum is the sum of the runs. */
  lemma {:induction false} RunLinear(a: bv32, b: bv32, us: seq<bv32>, vs: seq<bv32>)
    requires |us| == |vs|
    ensures Run(Xor(a, b), Sum(us, vs)) == Xor(Run(a, us), Run(b, vs))
    decreases |us|
  {
    hide Step, Xor;
    if us != [] {
      var n := |us| - 1;
      RunLinear(a, b, us[..n], vs[..n]);
      assert Sum(us, vs)[..n] == Sum(us[..n], vs[..n]);
      StepLinear(Run(a, us[..n]), Run(b, vs[..n]), us[n], vs[n]);
    }
  }

  lemma {:induction false} RunConcat(c: bv32, us: seq<bv32>, vs: seq<bv32>)
    ensures Run(c, us + vs) == Run(Run(c, us), vs)
    decreases |vs|
  {
    hide Step;
    if vs == [] {
      assert us + vs == us;
    } else {
      RunConcat(c, us, vs[..|vs| - 1]);
      assert (us + vs)[..|us + vs| - 1] == us + vs[..|vs| - 1];
    }
  }

  // ---------------------------------------------------------------- 30-bit states

  lemma FeedbackTerms(top: bv32)
    ensures Feedback(top, 5) == Pick(Bit(top, 0), 0x3b6a57b2) ^ Pick(Bit(top, 1), 0x26508e6d) ^ Pick(Bit(top, 2), 0x1ea119fa) ^ Pick(Bit(top, 3), 0x3d4233dd) ^ Pick(Bit(top, 4), 0x2a1462b3)
  {
    assert Feedback(top, 1) == Pick(Bit(top, 0), 0x3b6a57b2);
    assert Feedback(top, 2) == Pick(Bit(top, 0), 0x3b6a57b2) ^ Pick(Bit(top, 1), 0x26508e6d);
    assert Feedback(top, 3) == Pick(Bit(top, 0), 0x3b6a57b2) ^ Pick(Bit(top, 1), 0x26508e6d) ^ Pick(Bit(top, 2), 0x1ea119fa);
    assert Feedback(top, 4) == Pick(Bit(top, 0), 0x3b6a57b2) ^ Pick(Bit(top, 1), 0x26508e6d) ^ Pick(Bit(top, 2), 0x1ea119fa) ^ Pick(Bit(top, 3), 0x3d4233dd);
  }

  const Limit: bv32 := 0x40000000

  /** The low five bits of the generators are independent, so no state but 0 steps to 0. */
  lemma ZeroStepInjective(d: bv32)
    requires d < Limit && Step(d, 0) == 0
    ensures d == 0
  {
    FeedbackTerms(d >> 25);
  }

  lemma StepBelow(d: bv32, v: bv32)
    requires v < 32
    ensures Step(d, v) < Limit
  {
    FeedbackTerms(d >> 25);
  }

  ghost predicate Symbols(vs: seq<bv32>)
  {
    forall i :: 0 <= i < |vs| ==> vs[i] < 32
  }

  lemma {:induction false} RunBelow(c: bv32, vs: seq<bv32>)
    requires c < Limit && Symbols(vs)
    ensures Run(c, vs) < Limit
    decreases |vs|
  {
    hide Step;
    if vs != [] {
      StepBelow(Run(c, vs[..|vs| - 1]), vs[|vs| - 1]);
    }
  }

  function Zeros(n: nat): seq<bv32> { seq(n, _ => 0) }

  lemma {:induction false} ZerosInjective(d: bv32, n: nat)
    requires d < Limit && Run(d, Zeros(n)) == 0
    ensures d == 0
  {
    hide Step;
    if n > 0 {
      assert Zeros(n)[..n - 1] == Zeros(n - 1);
      RunBelow(d, Zeros(n - 1));
      ZeroStepInjective(Run(d, Zeros(n - 1)));
      ZerosInjective(d, n - 1);
    }
  }

  // ---------------------------------------------------------------- six symbols

  /** Six symbols side by side. */
  function Pack(r: seq<bv32>): bv32
    requires |r| == 6
  {
    (r[0] << 25) | (r[1] << 20) | (r[2] << 15) | (r[3] << 10) | (r[4] << 5) | r[5]
  }

  function Digit(mod: bv32, p: nat): (d: bv32)
    requires p < 6
    ensures d < 32
  {
    match p
    case 0 => (mod >> 25) & 31
    case 1 => (mod >> 20) & 31
    case 2 => (mod >> 15) & 31
    case 3 => (mod >> 10) & 31
    case 4 => (mod >> 5) & 31
    case _ => mod & 31
  }

  function Digits(mod: bv32): seq<bv32> { seq(6, p requires 0 <= p < 6 => Digit(mod, p)) }

  lemma PackDigits(mod: bv32)
    requires mod < Limit
    ensures Pack(Digits(mod)) == mod
  {
  }

  lemma DigitsPack(r: seq<bv32>)
    requires |r| == 6 && Symbols(r)
    ensures Pack(r) < Limit && Digits(Pack(r)) == r
  {
  }

  function Append(c: bv32, v: bv32): bv32 { (c << 5) | v }

  function Packed(r: seq<bv32>): bv32
  {
    if r == [] then 0 else Append(Packed(r[..|r| - 1]), r[|r| - 1])
  }

  /** 2 to the power 5 k. */
  function Width(k: nat): bv32
    requires k <= 6
  {
    match k
    case 0 => 1
    case 1 => 0x20
    case 2 => 0x400
    case 3 => 0x8000
    case 4 => 0x100000
    case 5 => 0x2000000
    case _ => 0x40000000
  }

  lemma WidthBelow(c: bv32, k: nat)
    requires k < 6 && c < Width(k)
    ensures c < 0x2000000
  {
  }

  lemma AppendBelow(c: bv32, v: bv32, k: nat)
    requires k < 6 && c < Width(k) && v < 32
    ensures Append(c, v) < Width(k + 1)
  {
    if k == 0 {
    } else if k == 1 {
    } else if k == 2 {
    } else if k == 3 {
    } else if k == 4 {
    } else {
    }
  }

  lemma NoFeedback(c: bv32)
    requires c < 0x2000000
    ensures Feedback(c >> 25, 5) == 0
  {
    assert c >> 25 == 0;
    FeedbackTerms(0);
  }

  lemma ShiftAppend(c: bv32, v: bv32)
    requires c < 0x2000000 && v < 32
    ensures Xor(Shift(c), v) == Append(c, v)
  {
  }

  lemma SmallStep(c: bv32, v: bv32)
    requires c < 0x2000000 && v < 32
    ensures Step(c, v) == Append(c, v)
  {
    hide Xor, Shift, Append, Feedback;
    NoFeedback(c);
    ShiftAppend(c, v);
    XorLaws(Append(c, v), 0, 0);
  }

  lemma {:induction false} PackedBelow(r: seq<bv32>)
    requires |r| <= 6 && Symbols(r)
    ensures Packed(r) < Width(|r|)
    decreases |r|
  {
    hide Width, Append;
    WidthZero();
    if r != [] {
      var n := |r| - 1;
      PackedBelow(r[..n]);
      AppendBelow(Packed(r[..n]), r[n], n);
    }
  }

  /** From state 0, up to six symbols are only shifted in. */
  lemma {:induction false} RunPacked(r: seq<bv32>)
    requires |r| <= 6 && Symbols(r)
    ensures Run(0, r) == Packed(r)
    decreases |r|
  {
    hide Step, Append, Width;
    if r != [] {
      var n := |r| - 1;
      RunPacked(r[..n]);
      PackedBelow(r[..n]);
      WidthBelow(Packed(r[..n]), n);
      SmallStep(Packed(r[..n]), r[n]);
    }
  }

  lemma WidthZero()
    ensures Width(0) == 1
  {
  }

  lemma PackedSix(r: seq<bv32>)
    requires |r| == 6
    ensures Packed(r) == Append(Append(Append(Append(Append(Append(0, r[0]), r[1]), r[2]), r[3]), r[4]), r[5])
  {
    hide Append;
    assert r[..5][..4] == r[..4] && r[..4][..3] == r[..3] && r[..3][..2] == r[..2] && r[..2][..1] == r[..1] && r[..1][..0] == [];
    assert Packed(r[..1]) == Append(0, r[0]);
    assert Packed(r[..2]) == Append(Packed(r[..1]), r[1]);
    assert Packed(r[..3]) == Append(Packed(r[..2]), r[2]);
    assert Packed(r[..4]) == Append(Packed(r[..3]), r[3]);
    assert Packed(r[..5]) == Append(Packed(r[..4]), r[4]);
  }

  lemma PackedPack(r: seq<bv32>)
    requires |r| == 6
    ensures Packed(r) == Pack(r)
  {
    hide Append;
    PackedSix(r);
    AppendSix(r[0], r[1], r[2], r[3], r[4], r[5]);
  }

  lemma AppendSix(a: bv32, b: bv32, c: bv32, d: bv32, e: bv32, f: bv32)
    ensures Append(Append(Append(Append(Append(Append(0, a), b), c), d), e), f)
         == (a << 25) | (b << 20) | (c << 15) | (d << 10) | (e << 5) | f
  {
  }

  // ---------------------------------------------------------------- the checksum

  /** 5-bit symbols. */
  ghost predicate Fives(vs: seq<Byte>)
  {
    forall i :: 0 <= i < |vs| ==> vs[i] < 32
  }

  lemma SmallBits(v: Byte)
    ensures v < 32 <==> (v as bv8) < 32
  {
    ByteBits(v);
    SmallInt(v as bv8);
  }

  lemma SmallInt(w: bv8)
    ensures w < 32 <==> w as int < 32
  {
  }

  lemma WordOf(v: Byte)
    ensures v < 32 ==> Word(v) < 32
  {
    SmallBits(v);
    SmallWord(v as bv8);
  }

  lemma SmallWord(v: bv8)
    ensures v < 32 <==> (v as bv32) < 32
  {
  }

  lemma WordInjective(u: Byte, v: Byte)
    requires Word(u) == Word(v)
    ensures u == v
  {
    ByteBits(u);
    ByteBits(v);
  }

  lemma FivesWords(vs: seq<Byte>)
    requires Fives(vs)
    ensures Symbols(Words(vs))
  {
    forall i | 0 <= i < |vs|
      ensures Words(vs)[i] < 32
    {
      WordOf(vs[i]);
    }
  }

  lemma WordsInjective(us: seq<Byte>, vs: seq<Byte>)
    requires Words(us) == Words(vs)
    ensures us == vs
  {
    assert |us| == |Words(us)| == |vs|;
    forall i | 0 <= i < |us|
      ensures us[i] == vs[i]
    {
      assert Words(us)[i] == Words(vs)[i];
      WordInjective(us[i], vs[i]);
    }
  }

  lemma WordsConcat(us: seq<Byte>, vs: seq<Byte>)
    ensures Words(us + vs) == Words(us) + Words(vs)
  {
  }

  function Lower(c: char): char
  {
    if 'A' <= c <= 'Z' then c + 32 as char else c
  }

  function ToLower(s: string): (r: string)
    ensures |r| == |s|
  {
    seq(|s|, i requires 0 <= i < |s| => Lower(s[i]))
  }

  ghost predicate Ascii(s: string)
  {
    forall i :: 0 <= i < |s| ==> s[i] < 128 as char
  }

  function HighBits(s: string): seq<Byte>
    requires Ascii(s)
  {
    seq(|s|, i requires 0 <= i < |s| => s[i] as int / 32)
  }

  function LowBits(s: string): seq<Byte>
    requires Ascii(s)
  {
    seq(|s|, i requires 0 <= i < |s| => s[i] as int % 32)
  }

  /** The human-readable part as symbols: high bits, a zero, low bits of the lower-case letters. */
  function Expanded(hrp: string): (r: seq<Byte>)
    requires Ascii(hrp)
    ensures Fives(r)
  {
    HighBits(ToLower(hrp)) + [0] + LowBits(ToLower(hrp))
  }

  method HrpExpand(hrp: string) returns (ret: seq<Byte>)
    requires Ascii(hrp)
    ensures ret == Expanded(hrp)
  {
    var h := ToLower(hrp);
    ret := [];
    for i := 0 to |h|
      invariant ret == HighBits(h)[..i]
    {
      ret := ret + [h[i] as int / 32];
    }
    ret := ret + [0];
    for i := 0 to |h|
      invariant ret == HighBits(h) + [0] + LowBits(h)[..i]
    {
      ret := ret + [h[i] as int % 32];
    }
  }

  /** The checksum state after the data part. */
  function State(hrp: string, data: seq<Byte>): bv32
    requires Ascii(hrp)
  {
    Run(1, Words(Expanded(hrp) + data))
  }

  predicate Verifies(hrp: string, data: seq<Byte>)
    requires Ascii(hrp)
  {
    State(hrp, data) == 1
  }

  method VerifyChecksum(hrp: string, data: seq<Byte>) returns (ok: bool)
    requires Ascii(hrp)
    ensures ok == Verifies(hrp, data)
  {
    var h := HrpExpand(hrp);
    var p := Polymod(h + data);
    ok := p == 1;
  }

  const SixZeros: seq<Byte> := [0, 0, 0, 0, 0, 0]

  /** byte(w) & 31 */
  function LowFive(w: bv32): (d: Byte)
    ensures d < 32
  {
    var d := ((w & 0xff) as bv8) & 31;
    BelowThirtyTwo(d);
    d as int
  }

  lemma BelowThirtyTwo(d: bv8)
    ensures d & 31 == d ==> d as int < 32
  {
  }

  lemma LowFiveWord(w: bv32)
    requires w < 32
    ensures Word(LowFive(w)) == w
  {
    var d := ((w & 0xff) as bv8) & 31;
    assert (d as int) as bv8 == d;
    assert d as bv32 == w;
  }

  function SixSymbols(mod: bv32): (r: seq<Byte>)
    ensures |r| == 6 && Fives(r)
  {
    seq(6, p requires 0 <= p < 6 => LowFive(Digit(mod, p)))
  }

  function Checksum(hrp: string, data: seq<Byte>): (r: seq<Byte>)
    requires Ascii(hrp)
    ensures |r| == 6 && Fives(r)
  {
    SixSymbols(Xor(State(hrp, data + SixZeros), 1))
  }

  /** byte(mod >> shift) & 31 for shift == 5 * (5 - p). */
  function Place(mod: bv32, p: nat): Byte
    requires p < 6
  {
    match p
    case 0 => LowFive(mod >> 25)
    case 1 => LowFive(mod >> 20)
    case 2 => LowFive(mod >> 15)
    case 3 => LowFive(mod >> 10)
    case 4 => LowFive(mod >> 5)
    case _ => LowFive(mod)
  }

  lemma LowFiveMasked(w: bv32)
    ensures LowFive(w & 31) == LowFive(w)
  {
    assert (((w & 31) & 0xff) as bv8) & 31 == ((w & 0xff) as bv8) & 31;
  }

  lemma DigitShift(mod: bv32, p: nat)
    requires p < 6
    ensures Place(mod, p) == LowFive(Digit(mod, p))
  {
    hide LowFive;
    LowFiveMasked(mod >> 25);
    LowFiveMasked(mod >> 20);
    LowFiveMasked(mod >> 15);
    LowFiveMasked(mod >> 10);
    LowFiveMasked(mod >> 5);
    LowFiveMasked(mod);
  }

  method Split(mod: bv32) returns (ret: seq<Byte>)
    ensures ret == SixSymbols(mod)
  {
    hide LowFive, Digit, Place;
    ret := [];
    for p := 0 to 6
      invariant ret == SixSymbols(mod)[..p]
    {
      DigitShift(mod, p);
      ret := ret + [Place(mod, p)];
    }
  }

  method CreateChecksum(hrp: string, data: seq<Byte>) returns (ret: seq<Byte>)
    requires Ascii(hrp)
    ensures ret == Checksum(hrp, data)
  {
    var h := HrpExpand(hrp);
    var values := h + data;
    values := values + SixZeros;
    assert values == Expanded(hrp) + (data + SixZeros);
    var mod := Polymod(values);
    mod := Xor(mod, 1);
    ret := Split(mod);
  }

  // ---------------------------------------------------------------- what the checksum is for

  lemma StateAppend(hrp: string, data: seq<Byte>, more: seq<Byte>)
    requires Ascii(hrp)
    ensures State(hrp, data + more) == Run(State(hrp, data), Words(more))
  {
    hide Run;
    assert Expanded(hrp) + (data + more) == Expanded(hrp) + data + more;
    WordsConcat(Expanded(hrp) + data, more);
    RunConcat(1, Words(Expanded(hrp) + data), Words(more));
  }

  /** Six symbols after state c only add themselves to the reduced state. */
  lemma RunSix(c: bv32, r: seq<bv32>)
    requires |r| == 6 && Symbols(r)
    ensures Run(c, r) == Xor(Run(c, Zeros(6)), Pack(r))
  {
    hide Run, Xor, Packed, Pack;
    XorLaws(c, 0, 0);
    forall i | 0 <= i < 6
      ensures Xor(0, r[i]) == r[i]
    {
      XorLaws(r[i], 0, 0);
    }
    assert Sum(Zeros(6), r) == r;
    RunLinear(c, 0, Zeros(6), r);
    RunPacked(r);
    PackedPack(r);
  }

  lemma WordsSix(mod: bv32)
    ensures Words(SixSymbols(mod)) == Digits(mod)
  {
    hide LowFive, Digit, Word;
    forall p: nat | p < 6
      ensures Word(LowFive(Digit(mod, p))) == Digit(mod, p)
    {
      LowFiveWord(Digit(mod, p));
    }
  }

  lemma StateBelow(hrp: string, data: seq<Byte>)
    requires Ascii(hrp) && Fives(data)
    ensures State(hrp, data) < Limit
  {
    FivesWords(Expanded(hrp) + data);
    RunBelow(1, Words(Expanded(hrp) + data));
  }

  lemma StateWithSum(hrp: string, data: seq<Byte>, sum: seq<Byte>)
    requires Ascii(hrp) && Fives(sum) && |sum| == 6
    ensures State(hrp, data + sum) == Xor(State(hrp, data + SixZeros), Pack(Words(sum)))
  {
    hide Run, Xor, Pack, Word, State;
    StateAppend(hrp, data, sum);
    StateAppend(hrp, data, SixZeros);
    WordZeros();
    FivesWords(sum);
    RunSix(State(hrp, data), Words(sum));
  }

  /** The six checksum symbols are the only ones that complete the data. */
  lemma ChecksumExact(hrp: string, data: seq<Byte>, sum: seq<Byte>)
    requires Ascii(hrp) && Fives(data) && Fives(sum) && |sum| == 6
    ensures Verifies(hrp, data + sum) <==> sum == Checksum(hrp, data)
  {
    hide Run, Xor, Pack, Words, SixSymbols, State;
    var z := State(hrp, data + SixZeros);
    StateWithSum(hrp, data, sum);
    StateBelow(hrp, data + SixZeros);
    FlipLow(z, Pack(Words(sum)));
    PackExact(sum, Xor(z, 1));
  }

  lemma PackExact(sum: seq<Byte>, mod: bv32)
    requires Fives(sum) && |sum| == 6 && mod < Limit
    ensures Pack(Words(sum)) == mod <==> sum == SixSymbols(mod)
  {
    hide Pack, LowFive, Digit, Word;
    FivesWords(sum);
    DigitsPack(Words(sum));
    WordsSix(mod);
    PackDigits(mod);
    if Pack(Words(sum)) == mod {
      WordsInjective(sum, SixSymbols(mod));
    }
  }

  lemma WordZeros()
    ensures Words(SixZeros) == Zeros(6)
  {
  }

  lemma FlipLow(z: bv32, w: bv32)
    requires z < Limit
    ensures Xor(z, 1) < Limit
    ensures Xor(z, w) == 1 <==> w == Xor(z, 1)
  {
    XorBelow(z, 1);
    hide Xor;
    XorLaws(z, z, w);
    XorLaws(w, 0, 0);
    XorLaws(z, z, 1);
    XorLaws(1, 0, 0);
  }

  /** Two data parts of equal length whose difference lies within six neighbouring symbols have
      different checksum states: at most one of them is accepted. */
  lemma BurstRejected(hrp: string, a: seq<Byte>, u: seq<Byte>, v: seq<Byte>, b: seq<Byte>)
    requires Ascii(hrp) && Fives(a) && Fives(u) && Fives(v) && Fives(b)
    requires |u| == |v| <= 6 && u != v
    ensures !(Verifies(hrp, a + u + b) && Verifies(hrp, a + v + b))
  {
    hide Run, Xor, Word, Packed;
    var c := State(hrp, a);
    var p, q := Run(c, Words(u)), Run(c, Words(v));
    StateAppend(hrp, a, u);
    StateAppend(hrp, a, v);
    StateAppend(hrp, a + u, b);
    StateAppend(hrp, a + v, b);
    FivesWords(u);
    FivesWords(v);
    DifferentRuns(c, Words(u), Words(v), u, v);
    StateBelow(hrp, a + u);
    StateBelow(hrp, a + v);
    SameTail(p, q, Words(b));
  }

  /** The same symbols after two different states leave them different. */
  lemma SameTail(p: bv32, q: bv32, b: seq<bv32>)
    requires p < Limit && q < Limit && p != q
    ensures Run(p, b) != Run(q, b)
  {
    hide Run, Xor;
    RunLinear(p, q, b, b);
    SelfSum(b);
    XorBelow(p, q);
    if Run(p, b) == Run(q, b) {
      XorLaws(Run(p, b), 0, 0);
      ZerosInjective(Xor(p, q), |b|);
      XorLaws(p, q, 0);
    }
  }

  lemma SelfSum(b: seq<bv32>)
    ensures Sum(b, b) == Zeros(|b|)
  {
    hide Xor;
    forall i | 0 <= i < |b|
      ensures Xor(b[i], b[i]) == 0
    {
      XorLaws(b[i], 0, 0);
    }
  }

  lemma XorBelow(p: bv32, q: bv32)
    requires p < Limit && q < Limit
    ensures Xor(p, q) < Limit
  {
  }

  /** Different short strings of symbols lead from one state to different states. */
  lemma DifferentRuns(c: bv32, us: seq<bv32>, vs: seq<bv32>, u: seq<Byte>, v: seq<Byte>)
    requires us == Words(u) && vs == Words(v) && u != v
    requires |us| == |vs| <= 6 && Symbols(us) && Symbols(vs)
    ensures Run(c, us) != Run(c, vs)
  {
    hide Run, Xor, Word, Packed;
    if us == vs {
      WordsInjective(u, v);
    }
    var d := Sum(us, vs);
    RunLinear(c, c, us, vs);
    XorLaws(c, 0, 0);
    SumSymbols(us, vs);
    RunPacked(d);
    if Run(c, us) == Run(c, vs) {
      XorLaws(Run(c, us), 0, 0);
      PackedZero(d);
      forall i | 0 <= i < |us|
        ensures us[i] == vs[i]
      {
        assert d[i] == Xor(us[i], vs[i]);
        XorLaws(us[i], vs[i], 0);
      }
    }
  }

  lemma SumSymbols(us: seq<bv32>, vs: seq<bv32>)
    requires |us| == |vs| && Symbols(us) && Symbols(vs)
    ensures Symbols(Sum(us, vs))
  {
    hide Xor;
    forall i | 0 <= i < |us|
      ensures Xor(us[i], vs[i]) < 32
    {
      XorSymbol(us[i], vs[i]);
    }
  }

  lemma XorSymbol(a: bv32, b: bv32)
    requires a < 32 && b < 32
    ensures Xor(a, b) < 32
  {
  }

  lemma {:induction false} PackedZero(r: seq<bv32>)
    requires |r| <= 6 && Symbols(r) && Packed(r) == 0
    ensures forall i :: 0 <= i < |r| ==> r[i] == 0
    decreases |r|
  {
    if r != [] {
      PackedZeroStep(r);
      PackedZero(r[..|r| - 1]);
    }
  }

  lemma PackedZeroStep(r: seq<bv32>)
    requires 0 < |r| <= 6 && Symbols(r) && Packed(r) == 0
    ensures Packed(r[..|r| - 1]) == 0 && r[|r| - 1] == 0
  {
    hide Append, Width;
    var n := |r| - 1;
    PackedBelow(r[..n]);
    WidthBelow(Packed(r[..n]), n);
    AppendZero(Packed(r[..n]), r[n]);
  }

  lemma AppendZero(c: bv32, v: bv32)
    requires c < 0x2000000 && v < 32 && Append(c, v) == 0
    ensures c == 0 && v == 0
  {
  }
}
