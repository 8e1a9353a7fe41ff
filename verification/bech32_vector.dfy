/** The symbols of a human-readable part, and the shortest valid string of BIP 173, section "Test vectors",
    through both programs of internal/bech32/bech32.go. */
module Bech32Vector {
  import opened Wrappers
  import opened Bytes
  import opened Bech32Checksum
  import opened Bech32
  import opened Bech32Codec

  /** The code of a letter, of the small one for a capital. */
  function SmallCode(c: char): int { if 'A' <= c <= 'Z' then c as int - 'A' as int + 'a' as int else c as int }

  /** The symbols at i and behind the zero make up the code of letter i. */
  predicate Halves(r: seq<Byte>, hrp: string, i: nat)
  {
    i < |hrp| && |r| == 2 * |hrp| + 1 && r[i] < 4 && r[|hrp| + 1 + i] < 32 && r[i] * 32 + r[|hrp| + 1 + i] == SmallCode(hrp[i])
  }

  /** Twice as many symbols as characters and a zero between them: what stands before it and behind it are the
      high and the low bits of the characters. */
  lemma ExpandedExact(hrp: string)
    requires Ascii(hrp)
    ensures var r := Expanded(hrp); |r| == 2 * |hrp| + 1 && r[|hrp|] == 0 && forall i :: 0 <= i < |hrp| ==> Halves(r, hrp, i)
  {
    var h := ToLower(hrp);
    var r := Expanded(hrp);
    forall i | 0 <= i < |hrp|
      ensures Halves(r, hrp, i)
    {
      assert r[i] == HighBits(h)[i] && r[|hrp| + 1 + i] == LowBits(h)[i];
      assert h[i] as int == SmallCode(hrp[i]) < 128;
    }
  }

  // ---------------------------------------------------------------- a12uel5l

  const Symbols: seq<Byte> := [10, 28, 25, 31, 20, 31]

  lemma RunSnoc(chk: bv32, vs: seq<bv32>, v: bv32)
    ensures Run(chk, vs + [v]) == Step(Run(chk, vs), v)
  {
    assert (vs + [v])[..|vs|] == vs;
    hide Step;
  }

  function Chosen(top: bv32): bv32
  {
    (if top & 1 == 1 then 0x3b6a57b2 else 0) ^ (if top & 2 == 2 then 0x26508e6d else 0) ^ (if top & 4 == 4 then 0x1ea119fa else 0)
    ^ (if top & 8 == 8 then 0x3d4233dd else 0) ^ (if top & 16 == 16 then 0x2a1462b3 else 0)
  }

  lemma FeedbackChosen(top: bv32)
    ensures Feedback(top, 5) == Chosen(top)
  {
    var f2 := Feedback(top, 2);
    assert f2 == (if top & 1 == 1 then 0x3b6a57b2 else 0) ^ (if top & 2 == 2 then 0x26508e6d else 0) by {
      TestedBits(top);
      assert Feedback(top, 0) == 0;
      assert Feedback(top, 1) == Pick(Bit(top, 0), 0x3b6a57b2);
    }
    TestedBits(top);
    assert Feedback(top, 3) == f2 ^ Pick(Bit(top, 2), 0x1ea119fa);
    assert Feedback(top, 4) == Feedback(top, 3) ^ Pick(Bit(top, 3), 0x3d4233dd);
  }

  lemma TestedBits(top: bv32)
    ensures (Bit(top, 0) <==> top & 1 == 1) && (Bit(top, 1) <==> top & 2 == 2) && (Bit(top, 2) <==> top & 4 == 4)
    ensures (Bit(top, 3) <==> top & 8 == 8) && (Bit(top, 4) <==> top & 16 == 16)
  {
  }

  lemma StepChosen(chk: bv32, v: bv32)
    ensures Step(chk, v) == (((chk & 0x1ffffff) << 5) ^ v) ^ Chosen(chk >> 25)
  {
    FeedbackChosen(chk >> 25);
    hide Chosen, Feedback;
  }

  lemma FirstSteps()
    ensures Step(Step(Step(1, 3), 0), 1) == 0x8c01
  {
    hide Step;
    StepChosen(1, 3);
    StepChosen(0x23, 0);
    StepChosen(0x460, 1);
  }

  lemma MiddleSteps()
    ensures Step(Step(Step(0x8c01, 10), 28), 25) == 0x3d6afc2b
  {
    hide Step;
    StepChosen(0x8c01, 10);
    StepChosen(0x11802a, 28);
    StepChosen(0x230055c, 25);
  }

  lemma LastSteps()
    ensures Step(Step(Step(0x3d6afc2b, 31), 20), 31) == 1
  {
    hide Step;
    StepChosen(0x3d6afc2b, 31);
    StepChosen(0x2f84386, 20);
    StepChosen(0x24622766, 31);
  }

  lemma RunThree(chk: bv32, vs: seq<bv32>, a: bv32, b: bv32, c: bv32)
    ensures Run(chk, vs + [a, b, c]) == Step(Step(Step(Run(chk, vs), a), b), c)
  {
    RunSnoc(chk, vs, a);
    RunSnoc(chk, vs + [a], b);
    RunSnoc(chk, vs + [a] + [b], c);
    assert vs + [a] + [b] + [c] == vs + [a, b, c];
    hide Step, Run;
  }

  lemma VectorRuns()
    ensures Run(1, [3, 0, 1, 10, 28, 25, 31, 20, 31]) == 1
  {
    RunNone();
    hide Step, Run;
    FirstSteps();
    MiddleSteps();
    LastSteps();
    var a, b := [3 as bv32, 0, 1], [3 as bv32, 0, 1, 10, 28, 25];
    RunThree(1, [], 3, 0, 1);
    RunThree(1, a, 10, 28, 25);
    RunThree(1, b, 31, 20, 31);
    assert [] + [3 as bv32, 0, 1] == a && a + [10, 28, 25] == b;
    assert b + [31, 20, 31] == [3 as bv32, 0, 1, 10, 28, 25, 31, 20, 31];
  }

  lemma RunNone()
    ensures Run(1, []) == 1
  {
  }

  lemma VectorVerifies()
    ensures Ascii("a") && Fives(Symbols) && Verifies("a", Symbols)
  {
    VectorRuns();
    hide Run;
    ExpandedExact("a");
    assert Ascii("a") && Fives(Symbols);
    var vs := Expanded("a") + Symbols;
    assert "a"[0] as int == 97 && Halves(Expanded("a"), "a", 0);
    assert vs == [3, 0, 1, 10, 28, 25, 31, 20, 31];
    hide Expanded;
    VectorWords(vs);
  }

  lemma VectorWords(vs: seq<Byte>)
    requires vs == [3, 0, 1, 10, 28, 25, 31, 20, 31]
    ensures Words(vs) == [3, 0, 1, 10, 28, 25, 31, 20, 31]
  {
    assert Word(3) == 3 && Word(0) == 0 && Word(1) == 1 && Word(10) == 10 && Word(28) == 28 && Word(25) == 25 && Word(31) == 31 && Word(20) == 20;
  }

  lemma VectorDenotes()
    ensures Denotes("a12uel5l", "a", [])
  {
    VectorVerifies();
    hide Verifies;
    var s, hrp := "a12uel5l", "a";
    assert "a" + "1" == "a1" && s[2..] == "2uel5l" && "a1" <= s;
    VectorChars();
    NoBits();
    assert Symbols[..0] == [];
    assert ToLower(s) == s;
    hide Chars, ToLower, Unpadded;
    assert DataPart(Tail(s, hrp), hrp, [], Symbols);
  }

  lemma VectorChars()
    ensures Chars(Symbols) == "2uel5l" == ToLower("2uel5l")
  {
  }

  lemma NoBits()
    ensures Unpadded([], 5, 8, [])
  {
  }

  /** The shortest valid string: the prefix a, and no bytes. */
  method ShortestString() returns (r: Result<(string, seq<Byte>)>, t: Result<string>)
    ensures r == Ok(("a", [])) && t == Ok("a12uel5l")
  {
    VectorDenotes();
    VectorCase();
    hide *;
    r := Decode("a12uel5l");
    t := Encode("a", []);
    DenotesOnce("a12uel5l", t.value, "a", []);
  }

  lemma VectorCase()
    ensures Ascii("a12uel5l") && ToLower("a12uel5l") == "a12uel5l" && ToLower("a") == "a"
    ensures "a" != "" && HrpCharacters("a") && SingleCase("a")
  {
  }
}
