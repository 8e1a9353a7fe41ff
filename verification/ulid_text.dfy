/** The text of a ULID: MarshalTextTo, parse, Prefix and MarshalPrefix of internal/ulid/ulid.go.
    16 bytes are one group of 3 and 5 bits, and three blocks of five bytes in eight groups of 5 bits. */
module UlidText {
  import opened Wrappers
  import opened Bytes

  datatype Error = DataSize | InvalidCharacters | Overflow

  type Result<T> = Outcome<T, Error>

  const EncodedSize: nat := 26

  const Encoding: string := "0123456789ABCDEFGHJKMNPQRSTVWXYZ"

  // ---------------------------------------------------------------- letters

  /** Encoding[d] */
  function Letter(d: bv8): char
    requires d < 32
  {
    LetterOf(Small(d))
  }

  function Small(d: bv8): (n: nat)
    requires d < 32
    ensures n < 32
  {
    SmallNumber(d);
    d as int
  }

  lemma SmallNumber(d: bv8)
    ensures d < 32 <==> d as int < 32
  {
  }

  /** The letters without I, L, O and U. */
  function LetterOf(n: nat): char
    requires n < 32
  {
    if n < 10 then '0' + n as char
    else if n < 18 then 'A' + (n - 10) as char
    else if n < 20 then 'J' + (n - 18) as char
    else if n < 22 then 'M' + (n - 20) as char
    else if n < 27 then 'P' + (n - 22) as char
    else 'V' + (n - 27) as char
  }

  lemma LettersAre(n: nat)
    requires n < 32
    ensures Encoding[n] == LetterOf(n)
  {
  }

  /** The table dec; 255 stands for characters that are not letters of the encoding. */
  function Value(c: char): (n: nat)
    ensures n < 32 || n == 255
  {
    ValueOf(Upper(c))
  }

  function ValueOf(u: char): (n: nat)
    ensures n < 32 || n == 255
  {
    if '0' <= u <= '9' then (u - '0') as int
    else if 'A' <= u <= 'H' then (u - 'A') as int + 10
    else if 'J' <= u <= 'K' then (u - 'J') as int + 18
    else if 'M' <= u <= 'N' then (u - 'M') as int + 20
    else if 'P' <= u <= 'T' then (u - 'P') as int + 22
    else if 'V' <= u <= 'Z' then (u - 'V') as int + 27
    else 255
  }

  function Dec(c: char): bv8 { Value(c) as bv8 }

  predicate Valid(c: char) { Value(c) < 32 }

  function Upper(c: char): char { if 'a' <= c <= 'z' then c - 32 as char else c }

  lemma DecValid(c: char)
    ensures Dec(c) == 0xFF <==> !Valid(c)
    ensures Dec(c) < 32 <==> Valid(c)
  {
    ByteBits(Value(c));
    SmallNumber(Dec(c));
    AllOnes(Dec(c));
  }

  lemma AllOnes(d: bv8)
    ensures d == 0xFF <==> d as int == 255
  {
  }

  lemma ValueLetter(n: nat)
    requires n < 32
    ensures Value(LetterOf(n)) == n && Upper(LetterOf(n)) == LetterOf(n)
  {
  }

  lemma LetterValue(c: char)
    requires Valid(c)
    ensures LetterOf(Value(c)) == Upper(c) && Value(Upper(c)) == Value(c)
  {
  }

  lemma DecLetter(d: bv8)
    requires d < 32
    ensures Dec(Letter(d)) == d && Valid(Letter(d)) && Upper(Letter(d)) == Letter(d)
  {
    ValueLetter(Small(d));
    BackAgain(d);
    hide Value, LetterOf;
  }

  lemma BackAgain(d: bv8)
    ensures (d as int) as bv8 == d
  {
  }

  lemma LetterDec(c: char)
    requires Valid(c)
    ensures Dec(c) < 32 && Letter(Dec(c)) == Upper(c)
  {
    DecValid(c);
    LetterValue(c);
    ByteBits(Value(c));
    hide Value, LetterOf;
  }

  lemma LetterRises(d: bv8, e: bv8)
    requires d < 32 && e < 32
    ensures d < e <==> Letter(d) < Letter(e)
  {
    Larger(d, e);
    LetterOfRises(Small(d), Small(e));
    LetterOfRises(Small(e), Small(d));
    hide LetterOf;
  }

  lemma Larger(d: bv8, e: bv8)
    ensures d < e <==> d as int < e as int
  {
  }

  lemma LetterOfRises(m: nat, n: nat)
    requires m < 32 && n < 32
    ensures m < n ==> LetterOf(m) < LetterOf(n)
    ensures m == n ==> LetterOf(m) == LetterOf(n)
  {
  }

  // ---------------------------------------------------------------- groups of five bits

  function G0(a: bv8): (g: bv8) ensures g < 32 { (a & 248) >> 3 }

  function G1(a: bv8, b: bv8): (g: bv8) ensures g < 32 { ((a & 7) << 2) | ((b & 192) >> 6) }

  function G2(b: bv8): (g: bv8) ensures g < 32 { (b & 62) >> 1 }

  function G3(b: bv8, c: bv8): (g: bv8) ensures g < 32 { ((b & 1) << 4) | ((c & 240) >> 4) }

  function G4(c: bv8, d: bv8): (g: bv8) ensures g < 32 { ((c & 15) << 1) | ((d & 128) >> 7) }

  function G5(d: bv8): (g: bv8) ensures g < 32 { (d & 124) >> 2 }

  function G6(d: bv8, e: bv8): (g: bv8) ensures g < 32 { ((d & 3) << 3) | ((e & 224) >> 5) }

  function G7(e: bv8): (g: bv8) ensures g < 32 { e & 31 }

  function Head(x: bv8): (g: bv8) ensures g < 8 { (x & 224) >> 5 }

  /** Group r of the block of five bytes. */
  function Group(a: bv8, b: bv8, c: bv8, d: bv8, e: bv8, r: nat): (g: bv8)
    requires r < 8
    ensures g < 32
  {
    match r
    case 0 => G0(a)
    case 1 => G1(a, b)
    case 2 => G2(b)
    case 3 => G3(b, c)
    case 4 => G4(c, d)
    case 5 => G5(d)
    case 6 => G6(d, e)
    case _ => G7(e)
  }

  /** Byte r of the block of eight groups. */
  function Packed(g0: bv8, g1: bv8, g2: bv8, g3: bv8, g4: bv8, g5: bv8, g6: bv8, g7: bv8, r: nat): bv8
    requires r < 5
  {
    match r
    case 0 => (g0 << 3) | (g1 >> 2)
    case 1 => (g1 << 6) | (g2 << 1) | (g3 >> 4)
    case 2 => (g3 << 4) | (g4 >> 1)
    case 3 => (g4 << 7) | (g5 << 2) | (g6 >> 3)
    case _ => (g6 << 5) | g7
  }

  lemma PackGroup(a: bv8, b: bv8, c: bv8, d: bv8, e: bv8, r: nat)
    requires r < 5
    ensures Packed(Group(a, b, c, d, e, 0), Group(a, b, c, d, e, 1), Group(a, b, c, d, e, 2), Group(a, b, c, d, e, 3),
                   Group(a, b, c, d, e, 4), Group(a, b, c, d, e, 5), Group(a, b, c, d, e, 6), Group(a, b, c, d, e, 7), r)
         == match r case 0 => a case 1 => b case 2 => c case 3 => d case _ => e
  {
  }

  lemma GroupPack(g0: bv8, g1: bv8, g2: bv8, g3: bv8, g4: bv8, g5: bv8, g6: bv8, g7: bv8, r: nat)
    requires g0 < 32 && g1 < 32 && g2 < 32 && g3 < 32 && g4 < 32 && g5 < 32 && g6 < 32 && g7 < 32 && r < 8
    ensures Group(Packed(g0, g1, g2, g3, g4, g5, g6, g7, 0), Packed(g0, g1, g2, g3, g4, g5, g6, g7, 1),
                  Packed(g0, g1, g2, g3, g4, g5, g6, g7, 2), Packed(g0, g1, g2, g3, g4, g5, g6, g7, 3),
                  Packed(g0, g1, g2, g3, g4, g5, g6, g7, 4), r)
         == match r case 0 => g0 case 1 => g1 case 2 => g2 case 3 => g3 case 4 => g4 case 5 => g5 case 6 => g6 case _ => g7
  {
  }

  // ---------------------------------------------------------------- identifiers and their text

  ghost predicate IsId(id: seq<bv8>) { |id| == 16 }

  /** Group i of the 26 groups of an identifier. */
  function Digit(id: seq<bv8>, i: nat): (d: bv8)
    requires IsId(id) && i < EncodedSize
    ensures d < 32
  {
    if i == 0 then Head(id[0])
    else if i == 1 then G7(id[0])
    else
      var at := 1 + 5 * ((i - 2) / 8);
      Group(id[at], id[at + 1], id[at + 2], id[at + 3], id[at + 4], (i - 2) % 8)
  }

  function Digits(id: seq<bv8>): (ds: seq<bv8>)
    requires IsId(id)
    ensures |ds| == EncodedSize && forall i :: 0 <= i < |ds| ==> ds[i] == Digit(id, i)
  {
    seq(EncodedSize, i requires 0 <= i < EncodedSize => Digit(id, i))
  }

  function Text(id: seq<bv8>): (s: string)
    requires IsId(id)
    ensures |s| == EncodedSize && forall i :: 0 <= i < |s| ==> s[i] == Letter(Digit(id, i))
  {
    seq(EncodedSize, i requires 0 <= i < EncodedSize => Letter(Digit(id, i)))
  }

  function PackByte(ds: seq<bv8>, k: nat): bv8
    requires |ds| == EncodedSize && k < 16
  {
    if k == 0 then (ds[0] << 5) | ds[1]
    else
      var at := 2 + 8 * ((k - 1) / 5);
      Packed(ds[at], ds[at + 1], ds[at + 2], ds[at + 3], ds[at + 4], ds[at + 5], ds[at + 6], ds[at + 7], (k - 1) % 5)
  }

  function Pack(ds: seq<bv8>): (id: seq<bv8>)
    requires |ds| == EncodedSize
    ensures |id| == 16 && forall k :: 0 <= k < 16 ==> id[k] == PackByte(ds, k)
  {
    seq(16, k requires 0 <= k < 16 => PackByte(ds, k))
  }

  lemma HeadPacks(x: bv8)
    ensures (((Head(x)) << 5) | (G7(x))) == x
  {
  }

  lemma HeadSplits(g: bv8, h: bv8)
    requires g < 8 && h < 32
    ensures Head((g << 5) | h) == g && G7((g << 5) | h) == h
  {
  }

  lemma PackDigits(id: seq<bv8>)
    requires IsId(id)
    ensures Pack(Digits(id)) == id
  {
    hide Pack, Digits, PackByte, Digit;
    forall k | 0 <= k < 16
      ensures Pack(Digits(id))[k] == id[k]
    {
      if k == 0 {
        HeadBack(id);
      } else {
        BlockBack(id, (k - 1) / 5, (k - 1) % 5);
      }
    }
  }

  lemma HeadBack(id: seq<bv8>)
    requires IsId(id)
    ensures PackByte(Digits(id), 0) == id[0]
  {
    hide Digits;
    HeadPacks(id[0]);
  }

  lemma BlockBack(id: seq<bv8>, q: nat, r: nat)
    requires IsId(id) && q < 3 && r < 5
    ensures PackByte(Digits(id), 1 + 5 * q + r) == id[1 + 5 * q + r]
  {
    hide Group, Packed, Digits, Digit, PackByte;
    var ds, at := Digits(id), 1 + 5 * q;
    DigitAt(id, q, 0);
    DigitAt(id, q, 1);
    DigitAt(id, q, 2);
    DigitAt(id, q, 3);
    DigitAt(id, q, 4);
    DigitAt(id, q, 5);
    DigitAt(id, q, 6);
    DigitAt(id, q, 7);
    BytesOfBlock(ds, q, r);
    PackGroup(id[at], id[at + 1], id[at + 2], id[at + 3], id[at + 4], r);
  }

  lemma DigitAt(id: seq<bv8>, q: nat, r: nat)
    requires IsId(id) && q < 3 && r < 8
    ensures var at := 1 + 5 * q;
      Digit(id, 2 + 8 * q + r) == Group(id[at], id[at + 1], id[at + 2], id[at + 3], id[at + 4], r)
  {
    hide Group;
    assert (8 * q + r) / 8 == q && (8 * q + r) % 8 == r;
  }

  ghost predicate Groups(ds: seq<bv8>)
  {
    |ds| == EncodedSize && ds[0] < 8 && forall i :: 0 <= i < |ds| ==> ds[i] < 32
  }

  lemma BytesOfBlock(ds: seq<bv8>, q: nat, r: nat)
    requires |ds| == EncodedSize && q < 3 && r < 5
    ensures var at := 2 + 8 * q;
      PackByte(ds, 1 + 5 * q + r)
        == Packed(ds[at], ds[at + 1], ds[at + 2], ds[at + 3], ds[at + 4], ds[at + 5], ds[at + 6], ds[at + 7], r)
  {
    hide Packed;
    assert (5 * q + r) / 5 == q && (5 * q + r) % 5 == r;
  }

  lemma DigitsPack(ds: seq<bv8>)
    requires Groups(ds)
    ensures Digits(Pack(ds)) == ds
  {
    hide Pack, Digits, PackByte, Digit, Groups;
    GroupsLength(ds);
    forall i | 0 <= i < EncodedSize
      ensures Digits(Pack(ds))[i] == ds[i]
    {
      if i < 2 {
        HeadAgain(ds, i);
      } else {
        BlockAgain(ds, (i - 2) / 8, (i - 2) % 8);
      }
    }
  }

  lemma GroupsLength(ds: seq<bv8>)
    requires Groups(ds)
    ensures |ds| == EncodedSize
  {
  }

  lemma HeadAgain(ds: seq<bv8>, i: nat)
    requires Groups(ds) && i < 2
    ensures Digit(Pack(ds), i) == ds[i]
  {
    hide Pack;
    HeadSplits(ds[0], ds[1]);
  }

  lemma BlockAgain(ds: seq<bv8>, q: nat, r: nat)
    requires Groups(ds) && q < 3 && r < 8
    ensures Digit(Pack(ds), 2 + 8 * q + r) == ds[2 + 8 * q + r]
  {
    hide Group, Packed, Pack, Digit, PackByte;
    var at := 2 + 8 * q;
    BytesOfBlock(ds, q, 0);
    BytesOfBlock(ds, q, 1);
    BytesOfBlock(ds, q, 2);
    BytesOfBlock(ds, q, 3);
    BytesOfBlock(ds, q, 4);
    DigitAt(Pack(ds), q, r);
    GroupPack(ds[at], ds[at + 1], ds[at + 2], ds[at + 3], ds[at + 4], ds[at + 5], ds[at + 6], ds[at + 7], r);
  }

  // ---------------------------------------------------------------- writing and reading

  /** Eight letters for five bytes. */
  method WriteBlock(dst: array<char>, at: nat, a: bv8, b: bv8, c: bv8, d: bv8, e: bv8)
    requires at + 8 <= dst.Length
    modifies dst
    ensures forall i :: at <= i < at + 8 ==> dst[i] == Letter(Group(a, b, c, d, e, i - at))
    ensures forall i :: 0 <= i < dst.Length && !(at <= i < at + 8) ==> dst[i] == old(dst[i])
  {
    hide Letter, G0, G1, G2, G3, G4, G5, G6, G7;
    dst[at] := Letter(G0(a));
    dst[at + 1] := Letter(G1(a, b));
    dst[at + 2] := Letter(G2(b));
    dst[at + 3] := Letter(G3(b, c));
    dst[at + 4] := Letter(G4(c, d));
    dst[at + 5] := Letter(G5(d));
    dst[at + 6] := Letter(G6(d, e));
    dst[at + 7] := Letter(G7(e));
  }

  method MarshalTextTo(id: seq<bv8>, dst: array<char>) returns (ok: bool)
    requires IsId(id)
    modifies dst
    ensures ok <==> dst.Length == EncodedSize
    ensures dst[..] == if ok then Text(id) else old(dst[..])
  {
    hide Letter, Group, Head, G7;
    if dst.Length != EncodedSize {
      return false;
    }
    dst[0] := Letter(Head(id[0]));
    dst[1] := Letter(G7(id[0]));
    WriteBlock(dst, 2, id[1], id[2], id[3], id[4], id[5]);
    WriteBlock(dst, 10, id[6], id[7], id[8], id[9], id[10]);
    WriteBlock(dst, 18, id[11], id[12], id[13], id[14], id[15]);
    ghost var s := dst[..];
    assert BlockStands(id, s, 0);
    assert BlockStands(id, s, 1);
    assert BlockStands(id, s, 2);
    hide BlockStands;
    TextWhen(id, s);
    return true;
  }

  ghost predicate BlockStands(id: seq<bv8>, s: string, q: nat)
    requires IsId(id) && |s| == EncodedSize && q < 3
  {
    var at := 1 + 5 * q;
    forall i :: 2 + 8 * q <= i < 10 + 8 * q ==> s[i] == Letter(Group(id[at], id[at + 1], id[at + 2], id[at + 3], id[at + 4], i - 2 - 8 * q))
  }

  lemma LetterAt(id: seq<bv8>, s: string, q: nat, r: nat)
    requires IsId(id) && |s| == EncodedSize && q < 3 && r < 8 && BlockStands(id, s, q)
    ensures s[2 + 8 * q + r] == Letter(Digit(id, 2 + 8 * q + r))
  {
    hide Letter, Group, Digit;
    DigitAt(id, q, r);
  }

  lemma TextWhen(id: seq<bv8>, s: string)
    requires IsId(id) && |s| == EncodedSize && s[0] == Letter(Head(id[0])) && s[1] == Letter(G7(id[0]))
    requires BlockStands(id, s, 0) && BlockStands(id, s, 1) && BlockStands(id, s, 2)
    ensures s == Text(id)
  {
    HeadDigits(id);
    hide Letter, Digit, BlockStands;
    forall i | 0 <= i < EncodedSize
      ensures s[i] == Letter(Digit(id, i))
    {
      if i >= 2 {
        LetterAt(id, s, (i - 2) / 8, (i - 2) % 8);
      }
    }
  }

  lemma HeadDigits(id: seq<bv8>)
    requires IsId(id)
    ensures Digit(id, 0) == Head(id[0]) && Digit(id, 1) == G7(id[0])
  {
    hide Head, G7;
  }

  predicate AllValid(v: string) { forall i :: 0 <= i < |v| ==> Valid(v[i]) }

  function Uppers(v: string): (s: string)
    ensures |s| == |v| && forall i :: 0 <= i < |v| ==> s[i] == Upper(v[i])
  {
    seq(|v|, i requires 0 <= i < |v| => Upper(v[i]))
  }

  /** parse: on characters of the encoding it succeeds exactly on the texts of identifiers, in either case,
      and gives the identifier; strictly, it succeeds on no others. */
  method Parse(v: string, strict: bool) returns (r: Result<seq<bv8>>)
    ensures r == Err(DataSize) <==> |v| != EncodedSize
    ensures r == Err(InvalidCharacters) <==> |v| == EncodedSize && strict && !AllValid(v)
    ensures r == Err(Overflow) <==> |v| == EncodedSize && (strict ==> AllValid(v)) && v[0] > '7'
    ensures r.Ok? ==> IsId(r.value) && (AllValid(v) ==> Text(r.value) == Uppers(v))
    ensures forall id :: IsId(id) && Text(id) == Uppers(v) ==> r == Ok(id)
  {
    assert EncodedSize == 26;
    hide *;
    if |v| != EncodedSize {
      TextLength(v);
      return Err(DataSize);
    }
    if strict && !AllValid(v) {
      TextsValid(v);
      return Err(InvalidCharacters);
    }
    if v[0] > '7' {
      TextsFirst(v);
      return Err(Overflow);
    }
    var ds := seq(EncodedSize, i requires 0 <= i < EncodedSize => Dec(v[i]));
    ReadText(v, ds);
    ReadOnly(v, ds);
    return Ok(Pack(ds));
  }

  lemma TextLength(v: string)
    ensures forall id :: IsId(id) && Text(id) == Uppers(v) ==> |v| == EncodedSize
  {
    hide Text, Uppers;
  }

  lemma TextsValid(v: string)
    ensures forall id :: IsId(id) && Text(id) == Uppers(v) ==> AllValid(v)
  {
    hide Text, Uppers, Letter, Value;
    forall id | IsId(id) && Text(id) == Uppers(v)
      ensures AllValid(v)
    {
      forall i | 0 <= i < |v|
        ensures Valid(v[i])
      {
        assert Text(id)[i] == Upper(v[i]);
        DecLetter(Digit(id, i));
        UpperValid(v[i]);
      }
    }
  }

  lemma UpperValid(c: char)
    ensures Valid(Upper(c)) <==> Valid(c)
    ensures Dec(Upper(c)) == Dec(c)
  {
    assert Upper(Upper(c)) == Upper(c);
    hide Upper, ValueOf;
  }

  lemma TextsFirst(v: string)
    requires |v| == EncodedSize
    ensures forall id :: IsId(id) && Text(id) == Uppers(v) ==> v[0] <= '7'
  {
    hide Text, Uppers, Letter;
    forall id | IsId(id) && Text(id) == Uppers(v)
      ensures v[0] <= '7'
    {
      assert Text(id)[0] == Upper(v[0]) == Letter(Digit(id, 0));
      LowLetter(Head(id[0]));
    }
  }

  lemma LowLetter(d: bv8)
    requires d < 8
    ensures '0' <= Letter(d) <= '7'
  {
    EightNumber(d);
  }

  lemma EightNumber(d: bv8)
    ensures d < 8 <==> d as int < 8
  {
  }

  /** Reading the letters of a text that starts low enough. */
  lemma ReadText(v: string, ds: seq<bv8>)
    requires |v| == |ds| == EncodedSize && v[0] <= '7' && forall i :: 0 <= i < |v| ==> ds[i] == Dec(v[i])
    ensures IsId(Pack(ds)) && (AllValid(v) ==> Text(Pack(ds)) == Uppers(v))
  {
    if AllValid(v) {
      hide Text, Uppers, Letter, Value, Pack, Digit, Digits;
      forall i | 0 <= i < |v|
        ensures ds[i] < 32 && Letter(ds[i]) == Upper(v[i])
      {
        LetterDec(v[i]);
      }
      FirstLow(v[0]);
      DigitsPack(ds);
      forall i | 0 <= i < EncodedSize
        ensures Text(Pack(ds))[i] == Uppers(v)[i]
      {
        assert Digits(Pack(ds))[i] == ds[i];
      }
    }
  }

  lemma FirstLow(c: char)
    requires Valid(c) && c <= '7'
    ensures Dec(c) < 8
  {
    ByteBits(Value(c));
    EightNumber(Dec(c));
  }

  lemma ReadOnly(v: string, ds: seq<bv8>)
    requires |v| == |ds| == EncodedSize && forall i :: 0 <= i < |v| ==> ds[i] == Dec(v[i])
    ensures forall id :: IsId(id) && Text(id) == Uppers(v) ==> Pack(ds) == id
  {
    hide Text, Uppers, Letter, Value, Pack, Digit, Digits;
    forall id | IsId(id) && Text(id) == Uppers(v)
      ensures Pack(ds) == id
    {
      forall i | 0 <= i < EncodedSize
        ensures ds[i] == Digits(id)[i]
      {
        assert Text(id)[i] == Upper(v[i]);
        DecLetter(Digit(id, i));
        UpperValid(v[i]);
      }
      PackDigits(id);
      assert ds == Digits(id);
    }
  }

  /** Parsing a marshalled identifier gives it back, strictly or not. */
  method MarshalThenParse(id: seq<bv8>, strict: bool) returns (r: Result<seq<bv8>>)
    requires IsId(id)
    ensures r == Ok(id)
  {
    var dst := new char[EncodedSize];
    var ok := MarshalTextTo(id, dst);
    TextUpper(id);
    hide Text, Uppers;
    r := Parse(dst[..], strict);
  }

  lemma TextUpper(id: seq<bv8>)
    requires IsId(id)
    ensures Uppers(Text(id)) == Text(id)
  {
    hide Letter;
    forall i | 0 <= i < EncodedSize
      ensures Uppers(Text(id))[i] == Text(id)[i]
    {
      DecLetter(Digit(id, i));
    }
  }

  // ---------------------------------------------------------------- order

  /** a is before b, byte by byte or letter by letter: the first difference is at k. */
  ghost predicate BeforeAt(a: seq<bv8>, b: seq<bv8>, k: nat)
  {
    k < |a| && |a| == |b| && (forall j :: 0 <= j < k ==> a[j] == b[j]) && a[k] < b[k]
  }

  ghost predicate Before(a: seq<bv8>, b: seq<bv8>) { exists k :: BeforeAt(a, b, k) }

  ghost predicate SortsAt(s: string, t: string, k: nat)
  {
    k < |s| && |s| == |t| && (forall j :: 0 <= j < k ==> s[j] == t[j]) && s[k] < t[k]
  }

  ghost predicate Sorts(s: string, t: string) { exists k :: SortsAt(s, t, k) }

  lemma HeadRises(x: bv8, y: bv8)
    requires x < y
    ensures Head(x) < Head(y) || (Head(x) == Head(y) && G7(x) < G7(y))
  {
  }

  lemma Rise0(a: bv8, b: bv8, a': bv8, b': bv8)
    requires a < a'
    ensures G0(a) < G0(a')
      || (G0(a) == G0(a') && G1(a, b) < G1(a', b'))
  {
  }

  lemma Rise1(a: bv8, b: bv8, c: bv8, b': bv8, c': bv8)
    requires b < b'
    ensures
      var x, y, z := G1(a, b), G2(b), G3(b, c);
      var x', y', z' := G1(a, b'), G2(b'), G3(b', c');
      x < x' || (x == x' && (y < y' || (y == y' && z < z')))
  {
  }

  lemma Rise2(b: bv8, c: bv8, d: bv8, c': bv8, d': bv8)
    requires c < c'
    ensures
      var x, y := G3(b, c), G4(c, d);
      var x', y' := G3(b, c'), G4(c', d');
      x < x' || (x == x' && y < y')
  {
  }

  lemma Rise3(c: bv8, d: bv8, e: bv8, d': bv8, e': bv8)
    requires d < d'
    ensures
      var x, y, z := G4(c, d), G5(d), G6(d, e);
      var x', y', z' := G4(c, d'), G5(d'), G6(d', e');
      x < x' || (x == x' && (y < y' || (y == y' && z < z')))
  {
  }

  lemma Rise4(d: bv8, e: bv8, e': bv8)
    requires e < e'
    ensures
      var x, x' := G6(d, e), G6(d, e');
      x < x' || (x == x' && G7(e) < G7(e'))
  {
  }

  datatype Block = Block(a: bv8, b: bv8, c: bv8, d: bv8, e: bv8)

  function GroupOf(s: Block, r: nat): bv8
    requires r < 8
  {
    Group(s.a, s.b, s.c, s.d, s.e, r)
  }

  ghost predicate SameUpTo(s: Block, t: Block, g: nat)
    requires g <= 8
  {
    forall h :: 0 <= h < g ==> GroupOf(s, h) == GroupOf(t, h)
  }

  lemma SameNone(s: Block, t: Block)
    ensures SameUpTo(s, t, 0)
  {
    hide GroupOf;
  }

  lemma SameMore(s: Block, t: Block, g: nat)
    requires g < 8 && SameUpTo(s, t, g) && GroupOf(s, g) == GroupOf(t, g)
    ensures SameUpTo(s, t, g + 1)
  {
    hide GroupOf;
  }

  lemma GroupsAre(s: Block)
    ensures GroupOf(s, 0) == G0(s.a) && GroupOf(s, 1) == G1(s.a, s.b) && GroupOf(s, 2) == G2(s.b)
    ensures GroupOf(s, 3) == G3(s.b, s.c) && GroupOf(s, 4) == G4(s.c, s.d) && GroupOf(s, 5) == G5(s.d)
    ensures GroupOf(s, 6) == G6(s.d, s.e) && GroupOf(s, 7) == G7(s.e)
  {
    hide G0, G1, G2, G3, G4, G5, G6, G7;
  }

  ghost predicate RisesOver(s: Block, t: Block, i: nat, j: nat, k: nat)
    requires i < 8 && j < 8 && k < 8
  {
    || GroupOf(s, i) < GroupOf(t, i)
    || (GroupOf(s, i) == GroupOf(t, i) && (GroupOf(s, j) < GroupOf(t, j) || (GroupOf(s, j) == GroupOf(t, j) && k > j && GroupOf(s, k) < GroupOf(t, k))))
  }

  lemma BlockRises0(s: Block, t: Block)
    requires s.a < t.a
    ensures RisesOver(s, t, 0, 1, 1)
  {
    GroupsAre(s);
    GroupsAre(t);
    Rise0(s.a, s.b, t.a, t.b);
    hide G0, G1, G2, G3, G4, G5, G6, G7, GroupOf;
  }

  lemma BlockRises1(s: Block, t: Block)
    requires s.a == t.a && s.b < t.b
    ensures RisesOver(s, t, 1, 2, 3) && SameUpTo(s, t, 1)
  {
    GroupsAre(s);
    GroupsAre(t);
    Rise1(s.a, s.b, s.c, t.b, t.c);
    hide G0, G1, G2, G3, G4, G5, G6, G7, GroupOf;
  }

  lemma BlockRises2(s: Block, t: Block)
    requires s.a == t.a && s.b == t.b && s.c < t.c
    ensures RisesOver(s, t, 3, 4, 4) && SameUpTo(s, t, 3)
  {
    GroupsAre(s);
    GroupsAre(t);
    Rise2(s.b, s.c, s.d, t.c, t.d);
    hide G0, G1, G2, G3, G4, G5, G6, G7, GroupOf;
  }

  lemma BlockRises3(s: Block, t: Block)
    requires s.a == t.a && s.b == t.b && s.c == t.c && s.d < t.d
    ensures RisesOver(s, t, 4, 5, 6) && SameUpTo(s, t, 4)
  {
    GroupsAre(s);
    GroupsAre(t);
    Rise3(s.c, s.d, s.e, t.d, t.e);
    hide G0, G1, G2, G3, G4, G5, G6, G7, GroupOf;
  }

  lemma BlockRises4(s: Block, t: Block)
    requires s.a == t.a && s.b == t.b && s.c == t.c && s.d == t.d && s.e < t.e
    ensures RisesOver(s, t, 6, 7, 7) && SameUpTo(s, t, 6)
  {
    GroupsAre(s);
    GroupsAre(t);
    Rise4(s.d, s.e, t.e);
    hide G0, G1, G2, G3, G4, G5, G6, G7, GroupOf;
  }

  ghost predicate Lower(s: Block, t: Block, g: nat)
    requires g < 8
  {
    GroupOf(s, g) < GroupOf(t, g)
  }

  lemma FirstOf(s: Block, t: Block, i: nat, j: nat, k: nat) returns (g: nat)
    requires i < 8 && j == i + 1 && j <= k <= j + 1 && k < 8 && SameUpTo(s, t, i) && RisesOver(s, t, i, j, k)
    ensures g < 8 && SameUpTo(s, t, g) && Lower(s, t, g)
  {
    hide SameUpTo, GroupOf;
    if GroupOf(s, i) < GroupOf(t, i) {
      g := i;
    } else {
      SameMore(s, t, i);
      if GroupOf(s, j) < GroupOf(t, j) {
        g := j;
      } else {
        SameMore(s, t, j);
        g := k;
      }
    }
  }

  lemma SameBytes(a: seq<bv8>, b: seq<bv8>, k: nat, i: nat)
    requires IsId(a) && IsId(b) && k < 16 && i < EncodedSize && forall j :: 0 <= j < k ==> a[j] == b[j]
    requires k > 0 && i < 2 + 8 * ((k - 1) / 5)
    ensures Digit(a, i) == Digit(b, i)
  {
    hide Group;
  }

  lemma RisesAt(a: seq<bv8>, b: seq<bv8>, k: nat) returns (i: nat)
    requires IsId(a) && IsId(b) && BeforeAt(a, b, k)
    ensures i < EncodedSize && Digit(a, i) < Digit(b, i) && forall h :: 0 <= h < i ==> Digit(a, h) == Digit(b, h)
  {
    hide G0, G1, G2, G3, G4, G5, G6, G7, Head;
    if k == 0 {
      HeadRises(a[0], b[0]);
      i := if Digit(a, 0) < Digit(b, 0) then 0 else 1;
    } else {
      var q, r := (k - 1) / 5, (k - 1) % 5;
      var g := RisesIn(a, b, q, r);
      i := 2 + 8 * q + g;
      hide Digit;
      forall h | 0 <= h < i
        ensures Digit(a, h) == Digit(b, h)
      {
        if h < 2 + 8 * q {
          SameBytes(a, b, k, h);
        } else {
          assert h == 2 + 8 * q + (h - 2 - 8 * q);
        }
      }
    }
  }

  function BlockAt(id: seq<bv8>, q: nat): Block
    requires IsId(id) && q < 3
  {
    Block(id[1 + 5 * q], id[2 + 5 * q], id[3 + 5 * q], id[4 + 5 * q], id[5 + 5 * q])
  }

  lemma DigitIn(id: seq<bv8>, q: nat, r: nat)
    requires IsId(id) && q < 3 && r < 8
    ensures Digit(id, 2 + 8 * q + r) == GroupOf(BlockAt(id, q), r)
  {
    hide Digit, Group;
    DigitAt(id, q, r);
  }

  ghost predicate SameDigits(a: seq<bv8>, b: seq<bv8>, lo: nat, hi: nat)
    requires IsId(a) && IsId(b) && hi <= EncodedSize
  {
    forall h :: lo <= h < hi ==> Digit(a, h) == Digit(b, h)
  }

  lemma SameByte(a: seq<bv8>, b: seq<bv8>, k: nat, j: nat)
    requires BeforeAt(a, b, k)
    ensures j < k ==> a[j] == b[j]
    ensures a[k] < b[k]
  {
  }

  /** Where the groups of two blocks differ first, when byte r is the first to differ. */
  lemma RisesIn(a: seq<bv8>, b: seq<bv8>, q: nat, r: nat) returns (g: nat)
    requires IsId(a) && IsId(b) && q < 3 && r < 5 && BeforeAt(a, b, 1 + 5 * q + r)
    ensures g < 8 && Digit(a, 2 + 8 * q + g) < Digit(b, 2 + 8 * q + g)
    ensures SameDigits(a, b, 2 + 8 * q, 2 + 8 * q + g)
  {
    hide *;
    g := RisesFrom(a, b, q, r);
    LowerIn(a, b, q, g);
    SameIn(a, b, q, g);
  }

  lemma LowerIn(a: seq<bv8>, b: seq<bv8>, q: nat, g: nat)
    requires IsId(a) && IsId(b) && q < 3 && g < 8 && Lower(BlockAt(a, q), BlockAt(b, q), g)
    ensures Digit(a, 2 + 8 * q + g) < Digit(b, 2 + 8 * q + g)
  {
    hide Digit, GroupOf, BlockAt;
    DigitIn(a, q, g);
    DigitIn(b, q, g);
  }

  lemma RisesFrom(a: seq<bv8>, b: seq<bv8>, q: nat, r: nat) returns (g: nat)
    requires IsId(a) && IsId(b) && q < 3 && r < 5 && BeforeAt(a, b, 1 + 5 * q + r)
    ensures g < 8 && SameUpTo(BlockAt(a, q), BlockAt(b, q), g) && Lower(BlockAt(a, q), BlockAt(b, q), g)
  {
    hide *;
    var s, t := BlockAt(a, q), BlockAt(b, q);
    if r == 0 {
      Rises0(a, b, q);
      SameNone(s, t);
      g := FirstOf(s, t, 0, 1, 1);
    } else if r == 1 {
      Rises1(a, b, q);
      g := FirstOf(s, t, 1, 2, 3);
    } else if r == 2 {
      Rises2(a, b, q);
      g := FirstOf(s, t, 3, 4, 4);
    } else if r == 3 {
      Rises3(a, b, q);
      g := FirstOf(s, t, 4, 5, 6);
    } else {
      Rises4(a, b, q);
      g := FirstOf(s, t, 6, 7, 7);
    }
  }

  lemma Rises0(a: seq<bv8>, b: seq<bv8>, q: nat)
    requires IsId(a) && IsId(b) && q < 3 && BeforeAt(a, b, 1 + 5 * q)
    ensures RisesOver(BlockAt(a, q), BlockAt(b, q), 0, 1, 1)
  {
    hide BeforeAt, RisesOver, SameUpTo;
    SameByte(a, b, 1 + 5 * q, 0);
    BlockRises0(BlockAt(a, q), BlockAt(b, q));
  }

  lemma Rises1(a: seq<bv8>, b: seq<bv8>, q: nat)
    requires IsId(a) && IsId(b) && q < 3 && BeforeAt(a, b, 2 + 5 * q)
    ensures RisesOver(BlockAt(a, q), BlockAt(b, q), 1, 2, 3) && SameUpTo(BlockAt(a, q), BlockAt(b, q), 1)
  {
    hide BeforeAt, RisesOver, SameUpTo;
    SameByte(a, b, 2 + 5 * q, 1 + 5 * q);
    BlockRises1(BlockAt(a, q), BlockAt(b, q));
  }

  lemma Rises2(a: seq<bv8>, b: seq<bv8>, q: nat)
    requires IsId(a) && IsId(b) && q < 3 && BeforeAt(a, b, 3 + 5 * q)
    ensures RisesOver(BlockAt(a, q), BlockAt(b, q), 3, 4, 4) && SameUpTo(BlockAt(a, q), BlockAt(b, q), 3)
  {
    hide BeforeAt, RisesOver, SameUpTo;
    SameByte(a, b, 3 + 5 * q, 1 + 5 * q);
    SameByte(a, b, 3 + 5 * q, 2 + 5 * q);
    BlockRises2(BlockAt(a, q), BlockAt(b, q));
  }

  lemma Rises3(a: seq<bv8>, b: seq<bv8>, q: nat)
    requires IsId(a) && IsId(b) && q < 3 && BeforeAt(a, b, 4 + 5 * q)
    ensures RisesOver(BlockAt(a, q), BlockAt(b, q), 4, 5, 6) && SameUpTo(BlockAt(a, q), BlockAt(b, q), 4)
  {
    hide BeforeAt, RisesOver, SameUpTo;
    SameByte(a, b, 4 + 5 * q, 1 + 5 * q);
    SameByte(a, b, 4 + 5 * q, 2 + 5 * q);
    SameByte(a, b, 4 + 5 * q, 3 + 5 * q);
    BlockRises3(BlockAt(a, q), BlockAt(b, q));
  }

  lemma Rises4(a: seq<bv8>, b: seq<bv8>, q: nat)
    requires IsId(a) && IsId(b) && q < 3 && BeforeAt(a, b, 5 + 5 * q)
    ensures RisesOver(BlockAt(a, q), BlockAt(b, q), 6, 7, 7) && SameUpTo(BlockAt(a, q), BlockAt(b, q), 6)
  {
    hide BeforeAt, RisesOver, SameUpTo;
    SameByte(a, b, 5 + 5 * q, 1 + 5 * q);
    SameByte(a, b, 5 + 5 * q, 2 + 5 * q);
    SameByte(a, b, 5 + 5 * q, 3 + 5 * q);
    SameByte(a, b, 5 + 5 * q, 4 + 5 * q);
    BlockRises4(BlockAt(a, q), BlockAt(b, q));
  }

  lemma SameIn(a: seq<bv8>, b: seq<bv8>, q: nat, g: nat)
    requires IsId(a) && IsId(b) && q < 3 && g < 8 && SameUpTo(BlockAt(a, q), BlockAt(b, q), g)
    ensures SameDigits(a, b, 2 + 8 * q, 2 + 8 * q + g)
  {
    hide Digit, GroupOf, BlockAt;
    forall h | 2 + 8 * q <= h < 2 + 8 * q + g
      ensures Digit(a, h) == Digit(b, h)
    {
      DigitIn(a, q, h - 2 - 8 * q);
      DigitIn(b, q, h - 2 - 8 * q);
    }
  }

  lemma TextRises(a: seq<bv8>, b: seq<bv8>)
    requires IsId(a) && IsId(b) && Before(a, b)
    ensures Sorts(Text(a), Text(b))
  {
    hide Digit, Letter;
    var k :| BeforeAt(a, b, k);
    var i := RisesAt(a, b, k);
    LetterRises(Digit(a, i), Digit(b, i));
    assert SortsAt(Text(a), Text(b), i);
  }

  lemma SortsOneWay(s: string, t: string)
    requires Sorts(s, t)
    ensures s != t && !Sorts(t, s)
  {
    var k :| SortsAt(s, t, k);
    forall j
      ensures !SortsAt(t, s, j)
    {
    }
  }

  lemma {:induction false} FirstDifference(a: seq<bv8>, b: seq<bv8>, k: nat)
    requires |a| == |b| && k <= |a| && forall j :: 0 <= j < k ==> a[j] == b[j]
    ensures a == b || Before(a, b) || Before(b, a)
    decreases |a| - k
  {
    if k < |a| {
      if a[k] == b[k] {
        FirstDifference(a, b, k + 1);
      } else {
        assert BeforeAt(a, b, k) || BeforeAt(b, a, k);
      }
    }
  }

  /** Texts sort as their identifiers do. */
  lemma TextOrder(a: seq<bv8>, b: seq<bv8>)
    requires IsId(a) && IsId(b)
    ensures Before(a, b) <==> Sorts(Text(a), Text(b))
    ensures a == b <==> Text(a) == Text(b)
  {
    hide Text, Before, Sorts;
    FirstDifference(a, b, 0);
    if Before(a, b) {
      TextRises(a, b);
      SortsOneWay(Text(a), Text(b));
    } else if Before(b, a) {
      TextRises(b, a);
      SortsOneWay(Text(b), Text(a));
    } else {
      NotItself(Text(a));
    }
  }

  lemma NotItself(s: string)
    ensures !Sorts(s, s)
  {
  }

  // ---------------------------------------------------------------- prefixes

  /** Prefix: the first 63 bits. */
  function Prefix(id: seq<bv8>): bv64
    requires IsId(id)
  {
    PrefixOf(id[0], id[1], id[2], id[3], id[4], id[5], id[6], id[7])
  }

  /** byte(pfx >> n) & 31 */
  function Low(w: bv64): (d: bv8)
    ensures d < 32
  {
    ((w & 0xFF) as bv8) & 31
  }

  function Shift(pfx: bv64, i: nat): bv64
    requires i < 12
  {
    match i
    case 0 => pfx >> 60
    case 1 => pfx >> 55
    case 2 => pfx >> 50
    case 3 => pfx >> 45
    case 4 => pfx >> 40
    case 5 => pfx >> 35
    case 6 => pfx >> 30
    case 7 => pfx >> 25
    case 8 => pfx >> 20
    case 9 => pfx >> 15
    case 10 => pfx >> 10
    case _ => pfx >> 5
  }

  function Fifth(pfx: bv64, i: nat): (d: bv8)
    requires i < 12
    ensures d < 32
  {
    Low(Shift(pfx, i))
  }

  function MarshalPrefix(pfx: bv64): (s: string)
    ensures |s| == 12 && forall i :: 0 <= i < 12 ==> s[i] == Letter(Fifth(pfx, i))
  {
    seq(12, i requires 0 <= i < 12 => Letter(Fifth(pfx, i)))
  }

  function PrefixOf(a: bv8, b: bv8, c: bv8, d: bv8, e: bv8, f: bv8, g: bv8, h: bv8): bv64
  {
    (a as bv64 << 55) | (b as bv64 << 47) | (c as bv64 << 39) | (d as bv64 << 31)
    | (e as bv64 << 23) | (f as bv64 << 15) | (g as bv64 << 7) | (h as bv64 >> 1)
  }

  lemma HeadFifths(a: bv8, b: bv8, c: bv8, d: bv8, e: bv8, f: bv8, g: bv8, h: bv8)
    ensures var p := PrefixOf(a, b, c, d, e, f, g, h);
      Low(p >> 60) == Head(a) && Low(p >> 55) == G7(a)
  {
  }

  lemma Fifths0(a: bv8, b: bv8, c: bv8, d: bv8, e: bv8, f: bv8, g: bv8, h: bv8)
    ensures var p := PrefixOf(a, b, c, d, e, f, g, h);
      Low(p >> 50) == G0(b) && Low(p >> 45) == G1(b, c)
  {
  }

  lemma Fifths2(a: bv8, b: bv8, c: bv8, d: bv8, e: bv8, f: bv8, g: bv8, h: bv8)
    ensures var p := PrefixOf(a, b, c, d, e, f, g, h);
      Low(p >> 40) == G2(c) && Low(p >> 35) == G3(c, d)
  {
  }

  lemma Fifths4(a: bv8, b: bv8, c: bv8, d: bv8, e: bv8, f: bv8, g: bv8, h: bv8)
    ensures var p := PrefixOf(a, b, c, d, e, f, g, h);
      Low(p >> 30) == G4(d, e) && Low(p >> 25) == G5(e)
  {
  }

  lemma Fifths6(a: bv8, b: bv8, c: bv8, d: bv8, e: bv8, f: bv8, g: bv8, h: bv8)
    ensures var p := PrefixOf(a, b, c, d, e, f, g, h);
      Low(p >> 20) == G6(e, f) && Low(p >> 15) == G7(f)
  {
  }

  lemma FifthsNext(a: bv8, b: bv8, c: bv8, d: bv8, e: bv8, f: bv8, g: bv8, h: bv8)
    ensures var p := PrefixOf(a, b, c, d, e, f, g, h);
      Low(p >> 10) == G0(g) && Low(p >> 5) == G1(g, h)
  {
  }

  /** Twelve groups of the bytes that make up the prefix. */
  function PrefixGroup(a: bv8, b: bv8, c: bv8, d: bv8, e: bv8, f: bv8, g: bv8, h: bv8, i: nat): bv8
    requires i < 12
  {
    match i
    case 0 => Head(a)
    case 1 => G7(a)
    case 2 => G0(b)
    case 3 => G1(b, c)
    case 4 => G2(c)
    case 5 => G3(c, d)
    case 6 => G4(d, e)
    case 7 => G5(e)
    case 8 => G6(e, f)
    case 9 => G7(f)
    case 10 => G0(g)
    case _ => G1(g, h)
  }

  lemma FifthsAre(a: bv8, b: bv8, c: bv8, d: bv8, e: bv8, f: bv8, g: bv8, h: bv8, i: nat)
    requires i < 12
    ensures Fifth(PrefixOf(a, b, c, d, e, f, g, h), i) == PrefixGroup(a, b, c, d, e, f, g, h, i)
  {
    HeadFifths(a, b, c, d, e, f, g, h);
    Fifths0(a, b, c, d, e, f, g, h);
    Fifths2(a, b, c, d, e, f, g, h);
    Fifths4(a, b, c, d, e, f, g, h);
    Fifths6(a, b, c, d, e, f, g, h);
    FifthsNext(a, b, c, d, e, f, g, h);
    hide Low, PrefixOf, G0, G1, G2, G3, G4, G5, G6, G7, Head;
  }

  lemma GroupIsDigit(id: seq<bv8>, i: nat)
    requires IsId(id) && i < 12
    ensures PrefixGroup(id[0], id[1], id[2], id[3], id[4], id[5], id[6], id[7], i) == Digit(id, i)
  {
    hide G0, G1, G2, G3, G4, G5, G6, G7, Head;
  }

  lemma FifthIsDigit(id: seq<bv8>, i: nat)
    requires IsId(id) && i < 12
    ensures Fifth(Prefix(id), i) == Digit(id, i)
  {
    hide Fifth, PrefixOf, PrefixGroup, Digit;
    FifthsAre(id[0], id[1], id[2], id[3], id[4], id[5], id[6], id[7], i);
    GroupIsDigit(id, i);
  }

  /** The text of the prefix is a prefix of the text. */
  lemma PrefixOfText(id: seq<bv8>)
    requires IsId(id)
    ensures MarshalPrefix(Prefix(id)) == Text(id)[..12]
  {
    hide Fifth, Digit, Letter, Prefix;
    forall i | 0 <= i < 12
      ensures MarshalPrefix(Prefix(id))[i] == Text(id)[i]
    {
      FifthIsDigit(id, i);
    }
  }
}
