/** The generator and the decoder of gift codes, with the loops and the in-place edits of GiftCode.cpp. */
module GiftCodeCalc {
  import opened Wrappers
  import opened Bits
  import opened GiftCode

  method NumToCode(num: nat, shift: uint32) returns (code: string)
    requires num < TWO64
    ensures code == NumToCodeSpec(num, shift)
  {
    var tmp: string := "";
    var t: nat, n: nat := 0, num;
    while n != 0
      invariant tmp + DashedDigits(n, shift, t) == DashedDigits(num, shift, 0)
    {
      tmp := tmp + [DIGITS[(n + shift) % TWO64 % SIZE]];
      n := n / SIZE;
      t := t + 1;
      if t % 4 == 0 {
        tmp := tmp + "-";
      }
    }
    assert tmp + [] == tmp;
    code := Reverse(tmp);
  }

  /** Bits of t before turn i of the spreading loop. */
  function Width(i: nat): nat
    requires i <= 3
  {
    if i == 0 then 18 else Width(i - 1) + (9 - i)
  }

  lemma TimesLess(t: nat, w: nat, m: nat)
    requires t < w && m > 0
    ensures t * m < w * m
  {
  }

  lemma Widths(i: nat)
    requires i < 3
    ensures Width(i + 1) == Width(i) + (8 - i) && Pow2(Width(i + 1)) < TWO64
  {
    Powers();
    assert Width(0) == 18 && Width(1) == 26 && Width(2) == 33 && Width(3) == 39;
  }

  lemma ShiftFits(t: nat, i: nat)
    requires i < 3 && t < Pow2(Width(i))
    ensures t * Pow2(8 - i) < Pow2(Width(i + 1)) < TWO64 && Spread(t, i) < Pow2(Width(i + 1))
  {
    Widths(i);
    Pow2Add(Width(i), 8 - i);
    TimesLess(t, Pow2(Width(i)), Pow2(8 - i));
    SpreadBounds(t, i, Pow2(8 - i), Width(i + 1));
  }

  /** The arithmetic of CalcGiftCode. No intermediate 64-bit value wraps around. */
  method CheckNumber(dwId: uint32, dwIdx: uint32, dwParam1: uint32, dwParam2: uint32) returns (sum: nat)
    requires dwId < MAX_ID && dwIdx <= MAX_INDEX
    ensures sum == Check(dwId, dwIdx, dwParam1, dwParam2)
  {
    sum := 0;
    sum := sum + dwIdx;
    sum := sum * 1003 + dwId;
    sum := sum * (dwParam1 % 109 + 1);
    SumTop(dwId, dwIdx, dwParam1);
    assert sum < TWO64;
    var t := SpreadSeed(dwParam2);
    sum := Xor(sum, t);
  }

  method SpreadSeed(dwParam2: uint32) returns (t: nat)
    ensures t == Mask(dwParam2)
  {
    t := dwParam2 % 100003 + 99881;
    WidthOfSeed();
    for i := 0 to 3
      invariant SpreadFrom(t, i) == Mask(dwParam2)
      invariant t < Pow2(Width(i))
    {
      ShiftFits(t, i);
      t := Spread(t, i);
    }
  }

  lemma WidthOfSeed()
    ensures Pow2(Width(0)) == 262144
  {
    Powers();
    Pow2Add(8, 8);
    Pow2Add(16, 2);
  }

  /** The part in front of the index. */
  method HeadText(dwId: uint32) returns (str: string)
    requires dwId < MAX_ID
    ensures str == Head(dwId) + "-"
  {
    str := "";
    var v := (('H' as int - 'A' as int) * 26 + ('D' as int - 'A' as int) + dwId / 100) % (26 * 26);
    str := str + [(v / 26 + 'A' as int) as char];
    str := str + [(v % 26 + 'A' as int) as char];
    assert dwId % 100 % 10 == dwId % 10;
    str := str + [Decimal(dwId % 100 / 10), Decimal(dwId % 100 % 10)] + "-";
  }

  method CalcGiftCode(dwId: uint32, dwIdx: uint32, dwParam1: uint32, dwParam2: uint32, dwParam3: uint32)
    returns (code: string)
    ensures code == Code(dwId, dwIdx, dwParam1, dwParam2, dwParam3)
  {
    if dwId >= MAX_ID || dwIdx > MAX_INDEX {
      return "Error";
    }
    var sum := CheckNumber(dwId, dwIdx, dwParam1, dwParam2);
    var str := HeadText(dwId);
    var strIdx := NumToCode(dwIdx, 0);
    while |strIdx| < 4
      invariant Pad(strIdx) == Pad(NumToCodeSpec(dwIdx, 0))
      decreases 4 - |strIdx|
    {
      strIdx := "0" + strIdx;
    }
    str := str + strIdx;
    CheckFits(dwId, dwIdx, dwParam1, dwParam2);
    var tail := NumToCode(sum, Xor(dwIdx, dwParam3) % SIZE + 1);
    code := str + tail;
  }

  lemma CheckFits(id: nat, idx: nat, param1: nat, param2: nat)
    requires id < MAX_ID && idx <= MAX_INDEX
    ensures Check(id, idx, param1, param2) < TWO64
  {
    CheckHasEightDigits(id, idx, param1, param2, 0);
    assert Pow34(4) == 1336336 && Pow34(8) == 1785793904896;
  }

  function Find(s: string, c: char): (pos: nat)
    ensures pos <= |s| && c !in s[..pos] && (pos < |s| ==> s[pos] == c)
  {
    if s == [] || s[0] == c then 0 else
      var pos := Find(s[1..], c) + 1;
      assert s[..pos] == [s[0]] + s[1..][..pos - 1];
      pos
  }

  /** The loop that replaces every dash by nothing. */
  method EraseDashes(s: string) returns (r: string)
    ensures r == Strip(s)
  {
    r := s;
    var pos := Find(r, '-');
    while pos < |r|
      invariant pos == Find(r, '-') && Strip(r) == Strip(s)
      decreases |r|
    {
      assert r == r[..pos] + ("-" + r[pos + 1..]);
      StripConcat(r[..pos], "-" + r[pos + 1..]);
      StripConcat(r[..pos], r[pos + 1..]);
      r := r[..pos] + r[pos + 1..];
      pos := Find(r, '-');
    }
    assert r[..pos] == r;
    StripIdentity(r);
  }

  /** What is left to check from position i on, once a digit has been seen or not. */
  ghost predicate RestPadded(u: string, i: nat, seen: bool)
    requires i <= |u|
  {
    if seen then '0' !in u[i..] else PaddedDigits(u[i..])
  }

  lemma PaddedStep(u: string, i: nat, seen: bool)
    requires i < |u|
    ensures RestPadded(u, i, seen) <==> !(seen && u[i] == '0') && RestPadded(u, i + 1, seen || u[i] != '0')
  {
    assert u[i..] == [u[i]] + u[i + 1..];
  }

  /** The loop that checks every character and turns letters to upper case in place. */
  method CheckChars(s: string) returns (ok: bool, code: string)
    requires |s| == 16
    ensures ok <==> (forall c :: c in Upper(s) ==> CharFits(c)) && PaddedDigits(Upper(s)[4..])
    ensures ok ==> code == Upper(s)
  {
    code := s;
    ghost var u := Upper(s);
    var bFlag := false;
    for i := 0 to 16
      invariant |code| == 16
      invariant forall j :: 0 <= j < i ==> code[j] == u[j] && CharFits(u[j])
      invariant forall j :: i <= j < 16 ==> code[j] == s[j]
      invariant i <= 4 ==> !bFlag
      invariant i >= 4 ==> (PaddedDigits(u[4..]) <==> RestPadded(u, i, bFlag))
    {
      UpperAt(s, i);
      if i >= 4 {
        PaddedStep(u, i, bFlag);
      }
      if '1' <= code[i] <= '9' {
      } else if 'a' <= code[i] <= 'z' {
        code := code[i := (code[i] as int - 'a' as int + 'A' as int) as char];
      } else if 'A' <= code[i] <= 'Z' {
      } else if code[i] == '0' {
        if bFlag {
          return false, code;
        }
      } else {
        assert u[i] in u;
        return false, code;
      }
      if i >= 4 && code[i] != '0' {
        bFlag := true;
      }
      if code[i] == 'O' {
        assert u[i] in u;
        return false, code;
      }
    }
    assert code == u;
    ok := true;
  }

  lemma {:induction false} UpperAt(s: string, i: nat)
    requires i < |s|
    ensures Upper(s)[i] == UpperChar(s[i])
  {
    if i != 0 {
      UpperAt(s[1..], i - 1);
    }
  }

  /** The test of the first two characters. */
  method AddPrefix(strCode: string) returns (code: string)
    ensures code == Prefixed(strCode)
  {
    code := strCode;
    var two := if |code| <= 2 then code else code[..2];
    PrefixSpellings(two);
    assert |code| >= 2 ==> two == code[..2];
    if two != "HD" && two != "hd" && two != "hD" && two != "Hd" {
      code := "HD" + code;
    }
  }

  /** FilterGiftCodeFormat. id and idx mean something only when ok. */
  method FilterGiftCodeFormat(strCode: string) returns (ok: bool, code: string, odwId: nat, odwIdx: int)
    ensures ok <==> Filter(strCode).Some?
    ensures ok ==> Filter(strCode) == Some(Decoded(code, odwId, odwIdx))
  {
    odwId, odwIdx := 0, 0;
    code := AddPrefix(strCode);
    code := EraseDashes(code);
    if |code| != 16 {
      return false, code, odwId, odwIdx;
    }
    ok, code := CheckChars(code);
    if !ok {
      return;
    }
    for i := 0 to 2
      invariant forall j :: 0 <= j < i ==> IsLetter(code[j])
    {
      if code[i] < 'A' || code[i] > 'Z' {
        return false, code, odwId, odwIdx;
      }
    }
    odwId := HundredsOf(code[0], code[1]);
    if code[2] < '0' || code[2] > '9' {
      return false, code, odwId, odwIdx;
    }
    if code[3] < '0' || code[3] > '9' {
      return false, code, odwId, odwIdx;
    }
    odwId := odwId + (code[2] as int - '0' as int) * 10 + (code[3] as int - '0' as int);
    odwIdx := IndexValue(code[4..8]);
    ok := true;
  }

  /** The two letters in base 26, counted from HD on, are the hundreds of the id. */
  method HundredsOf(a: char, b: char) returns (odwId: int)
    requires IsLetter(a) && IsLetter(b)
    ensures odwId == PrefixValue(a, b) * 100
  {
    var v1 := (a as int - 'A' as int) * 26 + (b as int - 'A' as int);
    var v2 := ('H' as int - 'A' as int) * 26 + ('D' as int - 'A' as int);
    var v := if v1 >= v2 then v1 - v2 else v1 + 26 * 26 - v2;
    odwId := v * 100;
  }

  /** The loop over the four index characters. */
  method IndexValue(s: string) returns (odwIdx: int)
    ensures odwIdx == DecodeIndex(s, 0)
  {
    odwIdx := 0;
    for i := 0 to |s|
      invariant DecodeIndex(s[i..], odwIdx) == DecodeIndex(s, 0)
    {
      assert s[i..][1..] == s[i + 1..];
      if s[i] != '0' {
        odwIdx := odwIdx * 34;
        if '1' <= s[i] <= '9' {
          odwIdx := odwIdx + (s[i] as int - '1' as int);
        } else if 'A' <= s[i] <= 'N' {
          odwIdx := odwIdx + (s[i] as int - 'A' as int + 9);
        } else {
          odwIdx := odwIdx + (s[i] as int - 'A' as int + 8);
        }
      }
    }
  }

  lemma PrefixSpellings(two: string)
    ensures Upper(two) == "HD" <==> two == "HD" || two == "hd" || two == "hD" || two == "Hd"
  {
    if |two| == 2 {
      UpperTwo(two);
      assert two == [two[0], two[1]];
    }
  }
}
