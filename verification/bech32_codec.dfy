/** Encode and Decode of internal/bech32/bech32.go (BIP 173), over ASCII strings. */
module Bech32Codec {
  import opened Wrappers
  import opened Arith
  import opened Bytes
  import opened Bech32Checksum
  import opened Bech32

  const Charset: string := "qpzry9x8gf2tvdw0s3jn54khce6mua7l"

  // ---------------------------------------------------------------- strings

  function Upper(c: char): char
  {
    if 'a' <= c <= 'z' then c - 32 as char else c
  }

  function ToUpper(s: string): (r: string)
    ensures |r| == |s|
  {
    seq(|s|, i requires 0 <= i < |s| => Upper(s[i]))
  }

  /** strings.IndexRune */
  function IndexRune(s: string, c: char): (r: int)
    ensures -1 <= r < |s|
    ensures r == -1 <==> c !in s
    ensures r >= 0 ==> s[r] == c
  {
    if s == "" then -1
    else if s[0] == c then 0
    else
      var r := IndexRune(s[1..], c);
      assert s == [s[0]] + s[1..];
      if r == -1 then -1 else r + 1
  }

  /** strings.LastIndex(s, "1") */
  function LastOne(s: string): (r: int)
    ensures -1 <= r < |s|
    ensures forall i :: r < i < |s| ==> s[i] != '1'
    ensures r >= 0 ==> s[r] == '1'
  {
    if s == "" then -1 else if s[|s| - 1] == '1' then |s| - 1 else LastOne(s[..|s| - 1])
  }

  predicate SingleCase(s: string)
  {
    ToLower(s) == s || ToUpper(s) == s
  }

  predicate HrpCharacters(hrp: string)
  {
    forall i :: 0 <= i < |hrp| ==> 33 as char <= hrp[i] <= 126 as char
  }

  // ---------------------------------------------------------------- the character set

  function Rank(c: char): int
  {
    if c == 'q' then 0 else if c == 'p' then 1 else if c == 'z' then 2 else if c == 'r' then 3
    else if c == 'y' then 4 else if c == '9' then 5 else if c == 'x' then 6 else if c == '8' then 7
    else if c == 'g' then 8 else if c == 'f' then 9 else if c == '2' then 10 else if c == 't' then 11
    else if c == 'v' then 12 else if c == 'd' then 13 else if c == 'w' then 14 else if c == '0' then 15
    else if c == 's' then 16 else if c == '3' then 17 else if c == 'j' then 18 else if c == 'n' then 19
    else if c == '5' then 20 else if c == '4' then 21 else if c == 'k' then 22 else if c == 'h' then 23
    else if c == 'c' then 24 else if c == 'e' then 25 else if c == '6' then 26 else if c == 'm' then 27
    else if c == 'u' then 28 else if c == 'a' then 29 else if c == '7' then 30 else if c == 'l' then 31
    else -1
  }

  lemma CharsetRank(i: nat)
    requires i < 32
    ensures |Charset| == 32 && Rank(Charset[i]) == i
    ensures Charset[i] != '1' && Lower(Charset[i]) == Charset[i]
    ensures Lower(Upper(Charset[i])) == Charset[i] && Upper(Charset[i]) != '1'
  {
  }

  function Chars(vs: seq<Byte>): (r: string)
    requires Fives(vs)
    ensures |r| == |vs|
  {
    seq(|vs|, i requires 0 <= i < |vs| => CharAt(vs[i]))
  }

  function CharAt(v: Byte): char
    requires v < 32
  {
    CharsetRank(v);
    Charset[v]
  }

  lemma CharAtIndex(v: Byte)
    requires v < 32
    ensures IndexRune(Charset, CharAt(v)) == v
  {
    var r := IndexRune(Charset, CharAt(v));
    CharsetRank(v);
    assert CharAt(v) in Charset;
    CharsetRank(r);
  }

  lemma CharsInjective(us: seq<Byte>, vs: seq<Byte>)
    requires Fives(us) && Fives(vs) && Chars(us) == Chars(vs)
    ensures us == vs
  {
    assert |us| == |Chars(us)| == |vs|;
    forall i | 0 <= i < |us|
      ensures us[i] == vs[i]
    {
      assert Chars(us)[i] == Chars(vs)[i];
      CharsetRank(us[i]);
      CharsetRank(vs[i]);
    }
  }

  lemma CaseLaws(c: char)
    ensures Lower(Lower(c)) == Lower(c) && Upper(Upper(c)) == Upper(c)
    ensures Upper(Lower(c)) == Upper(c) && Lower(Upper(c)) == Lower(c)
    ensures c < 128 as char ==> Lower(c) < 128 as char && Upper(c) < 128 as char
    ensures Lower(c) == '1' <==> c == '1'
  {
  }

  lemma LowerLaws(s: string, t: string)
    ensures ToLower(ToLower(s)) == ToLower(s) == ToLower(ToUpper(s))
    ensures ToUpper(ToUpper(s)) == ToUpper(s) == ToUpper(ToLower(s))
    ensures ToLower(s + t) == ToLower(s) + ToLower(t) && ToUpper(s + t) == ToUpper(s) + ToUpper(t)
    ensures Ascii(s) ==> Ascii(ToLower(s)) && Ascii(ToUpper(s))
  {
    hide Lower, Upper;
    forall c
      ensures Lower(Lower(c)) == Lower(c) && Upper(Upper(c)) == Upper(c)
      ensures Upper(Lower(c)) == Upper(c) && Lower(Upper(c)) == Lower(c)
      ensures c < 128 as char ==> Lower(c) < 128 as char && Upper(c) < 128 as char
    {
      CaseLaws(c);
    }
  }

  lemma CharsLower(vs: seq<Byte>)
    requires Fives(vs)
    ensures ToLower(Chars(vs)) == Chars(vs) && '1' !in Chars(vs)
  {
    forall i | 0 <= i < |vs|
      ensures Lower(CharAt(vs[i])) == CharAt(vs[i]) && CharAt(vs[i]) != '1'
    {
      CharsetRank(vs[i]);
    }
  }

  // ---------------------------------------------------------------- what a string denotes

  /** The characters after the separator: symbols that carry the data and its checksum. */
  ghost predicate DataPart(tail: string, hrp: string, data: seq<Byte>, syms: seq<Byte>)
  {
    && Ascii(hrp) && Fives(syms) && |syms| >= 6
    && ToLower(tail) == Chars(syms)
    && Verifies(hrp, syms)
    && Unpadded(syms[..|syms| - 6], 5, 8, data)
  }

  function Tail(s: string, hrp: string): string
    requires |hrp| < |s|
  {
    s[|hrp| + 1..]
  }

  /** s is a Bech32 string for the human-readable part hrp and the bytes data. */
  ghost predicate Denotes(s: string, hrp: string, data: seq<Byte>)
  {
    && SingleCase(s)
    && |hrp| >= 1 && HrpCharacters(hrp)
    && hrp + "1" <= s
    && exists syms :: DataPart(Tail(s, hrp), hrp, data, syms)
  }

  lemma PaddingInverse(data: seq<Byte>, values: seq<Byte>)
    ensures Padded(data, 8, 5, values) <==> Fives(values) && Unpadded(values, 5, 8, data)
    ensures Below(data, 8)
  {
    Pow2Values();
    hide Number, Times, Pow2;
  }

  lemma UnpaddedUnique(values: seq<Byte>, a: seq<Byte>, b: seq<Byte>)
    requires Unpadded(values, 5, 8, a) && Unpadded(values, 5, 8, b)
    ensures a == b
  {
    var k := Times(|values|, 5) - Times(|a|, 8);
    SameLength(|a|, k, |b|, Times(|values|, 5) - Times(|b|, 8), 8);
    Pow2Positive(k);
    CancelProduct(Number(a, 8), Number(b, 8), Pow2(k));
    NumberInjective(a, b, 8);
  }

  lemma PaddedUnique(data: seq<Byte>, u: seq<Byte>, v: seq<Byte>)
    requires Unpadded(u, 5, 8, data) && Unpadded(v, 5, 8, data) && Fives(u) && Fives(v)
    ensures u == v
  {
    Pow2Values();
    assert |u| == |v|;
    NumberInjective(u, v, 5);
  }

  lemma SeparatorFound(s: string, hrp: string, syms: seq<Byte>)
    requires hrp + "1" <= s && Fives(syms) && ToLower(Tail(s, hrp)) == Chars(syms)
    ensures LastOne(s) == |hrp|
  {
    CharsLower(syms);
    assert s[|hrp|] == (hrp + "1")[|hrp|];
    forall i | |hrp| < i < |s|
      ensures s[i] != '1'
    {
      var tail := Tail(s, hrp);
      assert tail[i - |hrp| - 1] == s[i];
      CaseLaws(s[i]);
      assert ToLower(tail)[i - |hrp| - 1] == Lower(s[i]);
    }
  }

  /** A string denotes at most one pair. */
  lemma DenotesUnique(s: string, hrp: string, data: seq<Byte>, hrp': string, data': seq<Byte>)
    requires Denotes(s, hrp, data) && Denotes(s, hrp', data')
    ensures hrp == hrp' && data == data'
  {
    hide Unpadded, Verifies, Chars, ToLower, ToUpper;
    var syms :| DataPart(Tail(s, hrp), hrp, data, syms);
    var syms' :| DataPart(Tail(s, hrp'), hrp', data', syms');
    SeparatorFound(s, hrp, syms);
    SeparatorFound(s, hrp', syms');
    assert hrp == s[..|hrp|] && hrp' == s[..|hrp'|];
    CharsInjective(syms, syms');
    UnpaddedUnique(syms[..|syms| - 6], data, data');
  }

  /** A pair is denoted by one string up to case: padding and checksum leave no choice. */
  lemma DenotesOnce(s: string, t: string, hrp: string, data: seq<Byte>)
    requires Denotes(s, hrp, data) && Denotes(t, hrp, data)
    ensures ToLower(s) == ToLower(t)
  {
    hide Unpadded, Verifies, Chars, ToLower, ToUpper, Checksum;
    var u :| DataPart(Tail(s, hrp), hrp, data, u);
    var v :| DataPart(Tail(t, hrp), hrp, data, v);
    var m, n := |u| - 6, |v| - 6;
    PaddedUnique(data, u[..m], v[..n]);
    assert u == u[..m] + u[m..] && v == v[..n] + v[n..];
    ChecksumExact(hrp, u[..m], u[m..]);
    ChecksumExact(hrp, v[..n], v[n..]);
    assert s == (hrp + "1") + Tail(s, hrp) && t == (hrp + "1") + Tail(t, hrp);
    LowerLaws(hrp + "1", Tail(s, hrp));
    LowerLaws(hrp + "1", Tail(t, hrp));
  }

  lemma SameExpansion(hrp: string)
    requires Ascii(hrp)
    ensures Ascii(ToLower(hrp)) && Expanded(ToLower(hrp)) == Expanded(hrp)
  {
    LowerLaws(hrp, "");
  }

  // ---------------------------------------------------------------- Encode

  method WriteSymbols(text: string, vs: seq<Byte>) returns (ret: string)
    requires Fives(vs)
    ensures ret == text + Chars(vs)
  {
    ret := text;
    for i := 0 to |vs|
      invariant ret == text + Chars(vs)[..i]
    {
      ret := ret + [CharAt(vs[i])];
    }
  }

  method CheckHrp(hrp: string) returns (ok: bool)
    ensures ok <==> HrpCharacters(hrp)
  {
    for i := 0 to |hrp|
      invariant forall j :: 0 <= j < i ==> 33 as char <= hrp[j] <= 126 as char
    {
      if hrp[i] < 33 as char || hrp[i] > 126 as char {
        return false;
      }
    }
    return true;
  }

  /** The text in lower case denotes the pair; so does the text in the case of the hrp. */
  lemma TextDenotes(hrp: string, data: seq<Byte>, values: seq<Byte>)
    requires Ascii(hrp) && hrp != "" && HrpCharacters(hrp) && SingleCase(hrp)
    requires Padded(data, 8, 5, values) && Fives(values)
    ensures Ascii(ToLower(hrp))
    ensures var sum := Checksum(ToLower(hrp), values);
      var text := ToLower(hrp) + "1" + Chars(values) + Chars(sum);
      && ToLower(text) == text
      && (ToLower(hrp) == hrp ==> Denotes(text, hrp, data))
      && (ToUpper(hrp) == hrp ==> Denotes(ToUpper(text), hrp, data))
  {
    hide Padded, Unpadded, Chars, ToLower, ToUpper, Checksum, Verifies;
    LowerLaws(hrp, "1");
    var low := ToLower(hrp);
    SumVerifies(hrp, values);
    var sum := Checksum(low, values);
    var syms := values + sum;
    PaddingInverse(data, values);
    assert syms[..|syms| - 6] == values;
    CharsConcat(values, sum);
    var text := low + "1" + Chars(values) + Chars(sum);
    assert text == (low + "1") + Chars(syms);
    CharsLower(syms);
    LowerLaws(low, "1");
    LowerLaws(low + "1", Chars(syms));
    LowerLaws(Chars(syms), "");
    LowerLaws(text, "");
    OneHasNoCase();
    var big := ToUpper(text);
    assert big == (ToUpper(low) + "1") + ToUpper(Chars(syms));
    if ToLower(hrp) == hrp {
      assert Tail(text, hrp) == Chars(syms);
      assert DataPart(Tail(text, hrp), hrp, data, syms);
    }
    if ToUpper(hrp) == hrp {
      assert Tail(big, hrp) == ToUpper(Chars(syms));
      assert DataPart(Tail(big, hrp), hrp, data, syms);
    }
  }

  lemma OneHasNoCase()
    ensures ToLower("1") == "1" == ToUpper("1")
  {
  }

  lemma CharsConcat(u: seq<Byte>, v: seq<Byte>)
    requires Fives(u) && Fives(v)
    ensures Fives(u + v) && Chars(u + v) == Chars(u) + Chars(v)
  {
  }

  lemma SumVerifies(hrp: string, values: seq<Byte>)
    requires Ascii(hrp) && Fives(values)
    ensures Ascii(ToLower(hrp))
    ensures Verifies(hrp, values + Checksum(ToLower(hrp), values))
  {
    SameExpansion(hrp);
    ChecksumExact(hrp, values, Checksum(hrp, values));
  }

  method Encode(hrp: string, data: seq<Byte>) returns (r: Result<string>)
    ensures r == Err(EmptyHrp) <==> hrp == ""
    ensures r == Err(BadHrpCharacter) <==> hrp != "" && !HrpCharacters(hrp)
    ensures r == Err(MixedCase) <==> hrp != "" && HrpCharacters(hrp) && !SingleCase(hrp)
    ensures r.Ok? <==> hrp != "" && HrpCharacters(hrp) && SingleCase(hrp)
    ensures r.Ok? ==> Denotes(r.value, hrp, data)
    ensures r.Ok? ==> r.value == if ToLower(hrp) == hrp then ToLower(r.value) else ToUpper(r.value)
  {
    hide Denotes, Padded, Chars, ToLower, ToUpper, Checksum;
    PaddingInverse(data, []);
    var converted := ConvertBits(data, 8, 5, true);
    assert converted.Ok?;
    var values := converted.value;
    PaddingInverse(data, values);
    if |hrp| < 1 {
      return Err(EmptyHrp);
    }
    var ok := CheckHrp(hrp);
    if !ok {
      return Err(BadHrpCharacter);
    }
    if ToUpper(hrp) != hrp && ToLower(hrp) != hrp {
      return Err(MixedCase);
    }
    TextDenotes(hrp, data, values);
    var lower := ToLower(hrp) == hrp;
    var low := ToLower(hrp);
    var text := WriteSymbols(low + "1", values);
    var sum := CreateChecksum(low, values);
    text := WriteSymbols(text, sum);
    LowerLaws(text, "");
    if lower {
      return Ok(text);
    }
    return Ok(ToUpper(text));
  }

  // ---------------------------------------------------------------- Decode

  /** The symbol of a character, or -1. */
  function SymbolOf(c: char): (d: int)
    ensures d == -1 || 0 <= d < 32
  {
    CharsetRank(0);
    IndexRune(Charset, c)
  }

  lemma SymbolRead(c: char)
    ensures SymbolOf(c) != -1 ==> CharAt(SymbolOf(c)) == c
  {
  }

  lemma NotASymbol(c: char, v: Byte)
    requires v < 32 && SymbolOf(c) == -1
    ensures CharAt(v) != c
  {
    CharAtIndex(v);
  }

  lemma CharsSnoc(vs: seq<Byte>, d: Byte)
    requires Fives(vs) && d < 32
    ensures Fives(vs + [d]) && Chars(vs + [d]) == Chars(vs) + [CharAt(d)]
  {
    hide CharAt;
  }

  lemma BadCharacter(tail: string, i: nat)
    requires i < |tail| && SymbolOf(tail[i]) == -1
    ensures forall syms :: Fives(syms) ==> tail != Chars(syms)
  {
    hide SymbolOf, CharAt;
    forall syms | Fives(syms)
      ensures tail != Chars(syms)
    {
      if tail == Chars(syms) {
        NotASymbol(tail[i], syms[i]);
      }
    }
  }

  method ReadSymbols(tail: string) returns (ok: bool, vs: seq<Byte>)
    ensures ok ==> Fives(vs) && tail == Chars(vs)
    ensures !ok ==> forall syms :: Fives(syms) ==> tail != Chars(syms)
  {
    hide SymbolOf, CharAt, Chars;
    vs := [];
    EmptyChars();
    for i := 0 to |tail|
      invariant Fives(vs) && tail[..i] == Chars(vs)
    {
      var d := SymbolOf(tail[i]);
      if d == -1 {
        BadCharacter(tail, i);
        return false, [];
      }
      SymbolRead(tail[i]);
      CharsSnoc(vs, d);
      assert tail[..i + 1] == tail[..i] + [tail[i]];
      vs := vs + [d];
    }
    assert tail[..|tail|] == tail;
    return true, vs;
  }

  lemma EmptyChars()
    ensures Chars([]) == ""
  {
  }

  /** Where a denoting string is split, whatever it denotes. */
  lemma DenotesShape(s: string, hrp: string, data: seq<Byte>) returns (syms: seq<Byte>)
    requires Denotes(s, hrp, data)
    ensures LastOne(s) == |hrp| >= 1 && |hrp| + 7 <= |s| && s[..|hrp|] == hrp && HrpCharacters(hrp)
    ensures DataPart(Tail(s, hrp), hrp, data, syms)
  {
    hide Unpadded, Verifies;
    syms :| DataPart(Tail(s, hrp), hrp, data, syms);
    assert |Tail(s, hrp)| == |Chars(syms)| == |syms|;
    SeparatorFound(s, hrp, syms);
  }

  lemma DenotesRead(s: string, hrp: string, data: seq<Byte>, syms: seq<Byte>)
    requires Denotes(s, hrp, data)
    requires Fives(syms) && ToLower(Tail(s, hrp)) == Chars(syms)
    ensures DataPart(Tail(s, hrp), hrp, data, syms)
  {
    hide Unpadded, Verifies, Chars, ToLower;
    var other := DenotesShape(s, hrp, data);
    CharsInjective(syms, other);
  }

  lemma LowerTail(s: string, k: nat)
    requires k <= |s|
    ensures ToLower(s)[k..] == ToLower(s[k..])
  {
  }

  /** The string has a separator, with a prefix before it and at least six characters behind. */
  predicate Separated(s: string) { LastOne(s) >= 1 && LastOne(s) + 7 <= |s| }

  /** The characters behind the separator, in lower case, carry these symbols. */
  ghost predicate Carries(s: string, syms: seq<Byte>)
    requires Separated(s)
  {
    Fives(syms) && ToLower(Tail(s, s[..LastOne(s)])) == Chars(syms)
  }

  /** Why a string is refused: the first of these that holds. */
  ghost predicate Reason(s: string, e: Error)
    requires Ascii(s)
  {
    if e.MixedCase? then !SingleCase(s)
    else if e.BadSeparator? then SingleCase(s) && !Separated(s)
    else if e.BadHrpCharacter? then SingleCase(s) && Separated(s) && !HrpCharacters(s[..LastOne(s)])
    else
      && SingleCase(s) && Separated(s) && HrpCharacters(s[..LastOne(s)])
      && if e.BadDataCharacter? then forall syms :: !Carries(s, syms)
         else if e.BadChecksum? then exists syms :: Carries(s, syms) && !Verifies(s[..LastOne(s)], syms)
         else (e.IllegalPadding? || e.NonZeroPadding?) && exists syms :: Carries(s, syms) && Verifies(s[..LastOne(s)], syms)
  }

  /** Decode succeeds exactly on the strings that denote a pair, and returns that pair. */
  method Decode(s: string) returns (r: Result<(string, seq<Byte>)>)
    requires Ascii(s)
    ensures r.Ok? ==> Denotes(s, r.value.0, r.value.1)
    ensures forall hrp, data :: Denotes(s, hrp, data) ==> r == Ok((hrp, data))
    ensures r == Err(MixedCase) <==> !SingleCase(s)
    ensures r.Err? ==> Reason(s, r.error)
  {
    if ToLower(s) != s && ToUpper(s) != s {
      return Err(MixedCase);
    }
    var pos := LastOne(s);
    if pos < 1 || pos + 7 > |s| {
      forall hrp, data | Denotes(s, hrp, data)
        ensures false
      {
        var _ := DenotesShape(s, hrp, data);
      }
      return Err(BadSeparator);
    }
    var h := s[..pos];
    r := DecodeAt(s, h);
    forall hrp, data | Denotes(s, hrp, data)
      ensures hrp == h && r == Ok((h, data))
    {
      var _ := DenotesShape(s, hrp, data);
    }
  }

  /** Decode behind the separator. */
  method DecodeAt(s: string, hrp: string) returns (r: Result<(string, seq<Byte>)>)
    requires Ascii(s) && SingleCase(s) && 1 <= |hrp| == LastOne(s) && |hrp| + 7 <= |s| && hrp == s[..|hrp|]
    ensures r.Ok? ==> r.value.0 == hrp && Denotes(s, hrp, r.value.1)
    ensures forall data :: Denotes(s, hrp, data) ==> r == Ok((hrp, data))
    ensures r != Err(MixedCase)
    ensures r.Err? ==> Reason(s, r.error)
  {
    hide ToLower, ToUpper, Chars, Verifies, Unpadded, Denotes;
    assert s[..LastOne(s)] == hrp;
    var ok := CheckHrp(hrp);
    if !ok {
      forall data | Denotes(s, hrp, data)
        ensures false
      {
        var _ := DenotesShape(s, hrp, data);
      }
      return Err(BadHrpCharacter);
    }
    var t := ToLower(s);
    var syms;
    ok, syms := ReadSymbols(t[|hrp| + 1..]);
    LowerTail(s, |hrp| + 1);
    assert t[|hrp| + 1..] == ToLower(Tail(s, hrp));
    if !ok {
      forall data | Denotes(s, hrp, data)
        ensures false
      {
        var _ := DenotesShape(s, hrp, data);
      }
      return Err(BadDataCharacter);
    }
    forall data | Denotes(s, hrp, data)
      ensures DataPart(Tail(s, hrp), hrp, data, syms)
    {
      DenotesRead(s, hrp, data, syms);
    }
    assert Carries(s, syms);
    ok := VerifyChecksum(hrp, syms);
    if !ok {
      return Err(BadChecksum);
    }
    r := DecodeData(s, hrp, syms);
  }

  method DecodeData(s: string, hrp: string, syms: seq<Byte>) returns (r: Result<(string, seq<Byte>)>)
    requires Ascii(s) && SingleCase(s) && 1 <= |hrp| && hrp + "1" <= s && |hrp| + 7 <= |s| && HrpCharacters(hrp)
    requires Ascii(hrp) && Fives(syms) && ToLower(Tail(s, hrp)) == Chars(syms) && Verifies(hrp, syms)
    ensures r.Ok? ==> r.value.0 == hrp && Denotes(s, hrp, r.value.1)
    ensures forall data :: DataPart(Tail(s, hrp), hrp, data, syms) ==> r == Ok((hrp, data))
    ensures r != Err(MixedCase)
    ensures r.Err? ==> r.error.IllegalPadding? || r.error.NonZeroPadding?
  {
    hide ToLower, ToUpper, Verifies, Unpadded;
    Pow2Values();
    assert |syms| == |Chars(syms)| == |Tail(s, hrp)|;
    var values := syms[..|syms| - 6];
    var converted := ConvertBits(values, 5, 8, false);
    if converted.Err? {
      return Err(converted.error);
    }
    assert DataPart(Tail(s, hrp), hrp, converted.value, syms);
    forall data | DataPart(Tail(s, hrp), hrp, data, syms)
      ensures data == converted.value
    {
      UnpaddedUnique(values, data, converted.value);
    }
    return Ok((hrp, converted.value));
  }

  // ---------------------------------------------------------------- round trips

  /** Decoding an encoding gives back the human-readable part and the bytes. */
  method EncodeThenDecode(hrp: string, data: seq<Byte>) returns (s: string, r: Result<(string, seq<Byte>)>)
    requires hrp != "" && HrpCharacters(hrp) && SingleCase(hrp)
    ensures r == Ok((hrp, data))
  {
    hide Denotes;
    var e := Encode(hrp, data);
    s := e.value;
    DenotesAscii(s, hrp, data);
    r := Decode(s);
  }

  lemma DenotesAscii(s: string, hrp: string, data: seq<Byte>)
    requires Denotes(s, hrp, data)
    ensures Ascii(s)
  {
    hide Unpadded, Verifies;
    var syms := DenotesShape(s, hrp, data);
    forall i | 0 <= i < |s|
      ensures s[i] < 128 as char
    {
      if i < |hrp| {
        assert s[i] == hrp[i];
      } else if i > |hrp| {
        var k := i - |hrp| - 1;
        assert Tail(s, hrp)[k] == s[i];
        assert ToLower(Tail(s, hrp))[k] == Lower(s[i]) == CharAt(syms[k]);
        CharsetAscii(syms[k]);
      } else {
        assert s[i] == (hrp + "1")[i];
      }
    }
  }

  lemma CharsetAscii(v: Byte)
    requires v < 32
    ensures CharAt(v) < 128 as char
  {
    CharsetRank(v);
  }

  /** Encoding what a string decodes to gives back the string, in lower case when the
      human-readable part has no upper-case letter. */
  method DecodeThenEncode(s: string) returns (r: Result<(string, seq<Byte>)>, t: Result<string>)
    requires Ascii(s)
    ensures r.Ok? ==> t == Ok(if ToLower(r.value.0) == r.value.0 then ToLower(s) else s)
  {
    hide Denotes, ToLower, ToUpper;
    r := Decode(s);
    if r.Err? {
      return r, Err(r.error);
    }
    var (hrp, data) := r.value;
    DenotedHrp(s, hrp, data);
    t := Encode(hrp, data);
    DenotesOnce(s, t.value, hrp, data);
    LowerLaws(s, "");
    LowerLaws(t.value, "");
  }

  lemma DenotedHrp(s: string, hrp: string, data: seq<Byte>)
    requires Denotes(s, hrp, data)
    ensures hrp != "" && HrpCharacters(hrp) && SingleCase(hrp) && Ascii(hrp)
    ensures ToLower(hrp) != hrp ==> ToUpper(s) == s
  {
    hide Unpadded, Verifies;
    var _ := DenotesShape(s, hrp, data);
    if ToLower(s) == s {
      forall i | 0 <= i < |hrp|
        ensures Lower(hrp[i]) == hrp[i]
      {
        assert ToLower(s)[i] == s[i] == hrp[i];
      }
    } else {
      forall i | 0 <= i < |hrp|
        ensures Upper(hrp[i]) == hrp[i]
      {
        assert ToUpper(s)[i] == s[i] == hrp[i];
      }
    }
  }
}
