/** What the characters of a gift code say: the batch, the dashes, the shift of the digit table, and
    the sum and the mask behind the check digits. */
module GiftDigits {
  import opened Seqs
  import opened Bits
  import opened GiftCode

  // ---------------------------------------------------------------- bits

  predicate Bit(a: nat, j: nat) {
    Shr(a, j) % 2 == 1
  }

  lemma {:induction false} XorBit(a: nat, b: nat, j: nat)
    ensures Bit(Xor(a, b), j) <==> (Bit(a, j) != Bit(b, j))
    decreases j
  {
    if j != 0 {
      XorHalf(a, b);
      XorBit(a / 2, b / 2, j - 1);
    }
  }

  lemma {:induction false} OrBit(a: nat, b: nat, j: nat)
    ensures Bit(Or(a, b), j) <==> Bit(a, j) || Bit(b, j)
    decreases j
  {
    if j != 0 {
      OrHalf(a, b);
      OrBit(a / 2, b / 2, j - 1);
    }
  }

  lemma OrHalf(a: nat, b: nat)
    ensures Or(a, b) / 2 == Or(a / 2, b / 2)
  {
  }

  /** Multiplying by a power of two shifts. */
  lemma {:induction false} ShlBit(a: nat, n: nat, j: nat)
    ensures Bit(a * Pow2(n), j) <==> j >= n && Bit(a, j - n)
    decreases n
  {
    if n != 0 {
      DoublePower(a, n);
      if j != 0 {
        assert Shr(a * Pow2(n), j) == Shr(a * Pow2(n - 1), j - 1);
        ShlBit(a, n - 1, j - 1);
      }
    }
  }

  lemma DoublePower(a: nat, n: nat)
    requires n > 0
    ensures a * Pow2(n) == 2 * (a * Pow2(n - 1))
  {
    var p := Pow2(n - 1);
    assert a * (2 * p) == 2 * (a * p);
  }

  /** Exclusive or undoes itself. */
  lemma {:induction false} XorTwice(a: nat, b: nat)
    ensures Xor(Xor(a, b), b) == a
    decreases a + b
  {
    if a != 0 || b != 0 {
      XorTwice(a / 2, b / 2);
      XorOnce(a, b);
      XorOnce(Xor(a, b), b);
      HalfLow(Xor(a, b), Xor(a / 2, b / 2), (a % 2 + b % 2) % 2);
      LowTwice(a, b);
    }
  }

  lemma XorOnce(a: nat, b: nat)
    ensures Xor(a, b) == 2 * Xor(a / 2, b / 2) + (a % 2 + b % 2) % 2
  {
  }

  lemma HalfLow(n: nat, high: nat, low: nat)
    requires n == 2 * high + low && low < 2
    ensures n / 2 == high && n % 2 == low
  {
  }

  lemma LowTwice(a: nat, b: nat)
    ensures ((a % 2 + b % 2) % 2 + b % 2) % 2 == a % 2
  {
  }

  // ---------------------------------------------------------------- the mask

  /** The distances over which the three turns of the loop spread a bit. */
  predicate Reaches(d: nat) {
    d == 0 || d == 6 || d == 7 || d == 8 || d == 13 || d == 14 || d == 15 || d == 21
  }

  predicate Comes(seed: nat, j: nat, d: nat) {
    j >= d && Bit(seed, j - d)
  }

  lemma SpreadBit(t: nat, i: nat, j: nat)
    requires i <= 8
    ensures Bit(Spread(t, i), j) <==> Bit(t, j) || Comes(t, j, 8 - i)
  {
    OrBit(t * Pow2(8 - i), t, j);
    ShlBit(t, 8 - i, j);
  }

  /** Main result on the mask: its bit j is set exactly when the seed has a bit at one of the eight
      distances below j. */
  lemma MaskBits(param2: nat, j: nat)
    ensures Bit(Mask(param2), j) <==> exists d :: Reaches(d) && Comes(param2 % 100003 + 99881, j, d)
  {
    var t0 := param2 % 100003 + 99881;
    var t1 := Spread(t0, 0);
    var t2 := Spread(t1, 1);
    assert Mask(param2) == SpreadFrom(t1, 1) == SpreadFrom(t2, 2) == SpreadFrom(Spread(t2, 2), 3);
    SpreadBit(t2, 2, j);
    SecondBit(t0, j);
    if j >= 6 {
      SecondBit(t0, j - 6);
    }
    MaskDistances(t0, j);
  }

  /** Two turns: the distances 0, 7, 8 and 15. */
  lemma SecondBit(t0: nat, j: nat)
    ensures Bit(Spread(Spread(t0, 0), 1), j) <==>
            Comes(t0, j, 0) || Comes(t0, j, 8) || Comes(t0, j, 7) || Comes(t0, j, 15)
  {
    SpreadBit(Spread(t0, 0), 1, j);
    SpreadBit(t0, 0, j);
    if j >= 7 {
      SpreadBit(t0, 0, j - 7);
    }
  }

  lemma MaskDistances(t: nat, j: nat)
    ensures (exists d :: Reaches(d) && Comes(t, j, d)) <==>
            Comes(t, j, 0) || Comes(t, j, 8) || Comes(t, j, 7) || Comes(t, j, 15)
            || Comes(t, j, 6) || Comes(t, j, 14) || Comes(t, j, 13) || Comes(t, j, 21)
  {
    assert Reaches(0) && Reaches(6) && Reaches(7) && Reaches(8);
    assert Reaches(13) && Reaches(14) && Reaches(15) && Reaches(21);
  }

  // ---------------------------------------------------------------- reading the check digits

  /** The number whose digits stand in s under a table that is rotated by shift. */
  function Unshifted(s: string, shift: nat, value: int): int {
    if s == [] then value else Unshifted(s[1..], shift, value * 34 + (Undigit(s[0]) - shift) % 34)
  }

  lemma {:induction false} UnshiftedAppend(a: string, c: char, shift: nat, value: int)
    ensures Unshifted(a + [c], shift, value) == Unshifted(a, shift, value) * 34 + (Undigit(c) - shift) % 34
    decreases |a|
  {
    if a == [] {
      assert a + [c] == [c] && [c][1..] == [];
    } else {
      assert (a + [c])[1..] == a[1..] + [c];
      UnshiftedAppend(a[1..], c, shift, value * 34 + (Undigit(a[0]) - shift) % 34);
    }
  }

  lemma {:induction false} ReadShifted(num: nat, shift: nat)
    requires num + shift < TWO64
    ensures Unshifted(Reverse(Digits(num, shift)), shift, 0) == num
    decreases num
  {
    if num != 0 {
      LastDigit(num, shift);
      ReadShifted(num / SIZE, shift);
      ReadOneMore(num, shift, Reverse(Digits(num / SIZE, shift)));
    }
  }

  lemma ReadOneMore(num: nat, shift: nat, front: string)
    requires Unshifted(front, shift, 0) == num / SIZE
    ensures Unshifted(front + [DIGITS[(num + shift) % SIZE]], shift, 0) == num
  {
    DigitBack(num, shift);
    UnshiftedAppend(front, DIGITS[(num + shift) % SIZE], shift, 0);
  }

  lemma DigitBack(num: nat, shift: nat)
    ensures (Undigit(DIGITS[(num + shift) % SIZE]) - shift) % 34 == num % 34
  {
    TableRoundTrip((num + shift) % SIZE);
    ShiftBack(num, shift);
  }

  lemma ShiftBack(num: nat, shift: nat)
    ensures ((num + shift) % 34 - shift) % 34 == num % 34
  {
  }

  /** The least significant digit comes last. */
  lemma LastDigit(num: nat, shift: nat)
    requires 0 < num && num + shift < TWO64
    ensures Reverse(Digits(num, shift)) == Reverse(Digits(num / SIZE, shift)) + [DIGITS[(num + shift) % SIZE]]
  {
    assert (num + shift) % TWO64 == num + shift;
    assert Digits(num, shift)[1..] == Digits(num / SIZE, shift);
  }

  /** The sum that the last eight characters of a code carry under the mask. */
  function SumBehind(code: string, shift: nat, param2: nat): nat
    requires |Strip(code)| == 16
  {
    var n := Unshifted(Strip(code)[8..], shift, 0);
    if n < 0 then 0 else Xor(n, Mask(param2))
  }

  /** Main result: the last eight characters of a code, read with the table shifted back by
      (index xor third parameter) modulo 34 plus 1, and without the mask of the second parameter, are
      (1003 times the index plus the id) times (the first parameter modulo 109 plus 1). */
  lemma CodeCarriesSum(id: nat, idx: nat, param1: nat, param2: nat, param3: nat, shift: nat)
    requires id < MAX_ID && idx <= MAX_INDEX && shift == Xor(idx, param3) % 34 + 1
    ensures var code := Code(id, idx, param1, param2, param3);
            |Strip(code)| == 16 && SumBehind(code, shift, param2) == (idx * 1003 + id) * (param1 % 109 + 1)
  {
    assert shift == Shift(idx, param3);
    CheckBehind(id, idx, param1, param2, param3);
    ReadCheck(id, idx, param1, param2, shift);
    Unmasked(id, idx, param1, param2);
    SumOf(Code(id, idx, param1, param2, param3), Reverse(Digits(Check(id, idx, param1, param2), shift)), shift, param2,
          Check(id, idx, param1, param2));
  }

  lemma Unmasked(id: nat, idx: nat, param1: nat, param2: nat)
    ensures Xor(Check(id, idx, param1, param2), Mask(param2)) == (idx * 1003 + id) * (param1 % 109 + 1)
  {
    XorTwice(Sum(id, idx, param1), Mask(param2));
  }

  lemma SumOf(code: string, tail: string, shift: nat, param2: nat, check: nat)
    requires |Strip(code)| == 16 && Strip(code)[8..] == tail && Unshifted(tail, shift, 0) == check
    ensures SumBehind(code, shift, param2) == Xor(check, Mask(param2))
  {
  }

  lemma CheckBehind(id: nat, idx: nat, param1: nat, param2: nat, param3: nat)
    requires id < MAX_ID && idx <= MAX_INDEX
    ensures var s := Strip(Code(id, idx, param1, param2, param3));
            |s| == 16 && s[8..] == Reverse(Digits(Check(id, idx, param1, param2), Shift(idx, param3)))
  {
    CodeNormalizes(id, idx, param1, param2, param3);
    StripPadded(idx);
    CheckTail(Head(id), IndexPart(idx), CheckPart(id, idx, param1, param2, param3));
  }

  lemma CheckTail(head: string, index: string, check: string)
    requires |head| == 4 && |index| == 4
    ensures (head + index + check)[8..] == check
  {
  }

  lemma ReadCheck(id: nat, idx: nat, param1: nat, param2: nat, shift: nat)
    requires id < MAX_ID && idx <= MAX_INDEX && shift <= 34
    ensures var check := Check(id, idx, param1, param2);
            Unshifted(Reverse(Digits(check, shift)), shift, 0) == check
  {
    CheckHasEightDigits(id, idx, param1, param2, shift);
    assert Pow34(4) == 1336336 && Pow34(8) == 1785793904896;
    ReadShifted(Check(id, idx, param1, param2), shift);
  }

  /** So the sum is 0 for the first code of the first batch, one more in the id adds the factor of the
      first parameter, and one more in the index 1003 times that. */
  lemma SumGrows(id: nat, idx: nat, param1: nat)
    ensures Sum(0, 0, param1) == 0
    ensures Sum(id + 1, idx, param1) == Sum(id, idx, param1) + (param1 % 109 + 1)
    ensures Sum(id, idx + 1, param1) == Sum(id, idx, param1) + 1003 * (param1 % 109 + 1)
  {
    var f := param1 % 109 + 1;
    assert (idx * 1003 + (id + 1)) * f == (idx * 1003 + id) * f + f;
    assert ((idx + 1) * 1003 + id) * f == (idx * 1003 + id) * f + 1003 * f;
  }

  // ---------------------------------------------------------------- the dashes

  /** Main result on the form: four groups of four. The dash behind four digits also comes in front of
      an index that needs all its four digits, so that two dashes stand there. */
  lemma CodeShape(id: nat, idx: nat, param1: nat, param2: nat, param3: nat)
    requires id < MAX_ID && idx <= MAX_INDEX
    ensures var n := Normal(id, idx, param1, param2, param3);
            |n| == 16 && Grouped(Code(id, idx, param1, param2, param3), n, if idx >= 39304 then "--" else "-")
  {
    NormalLength(id, idx, param1, param2, param3);
    CheckHasEightDigits(id, idx, param1, param2, Shift(idx, param3));
    ShapeOf(id, idx, Check(id, idx, param1, param2), Shift(idx, param3));
  }

  lemma ShapeOf(id: nat, idx: nat, check: nat, shift: nat)
    requires id < MAX_ID && idx <= MAX_INDEX && |Digits(check, shift)| == 8
    ensures var n := Head(id) + IndexPart(idx) + Reverse(Digits(check, shift));
            |n| == 16 && Grouped(Head(id) + "-" + Pad(NumToCodeSpec(idx, 0)) + NumToCodeSpec(check, shift), n,
                                 if idx >= 39304 then "--" else "-")
  {
    StripPadded(idx);
    EightDashed(check, shift);
    IndexDashed(idx);
    Groups(Head(id), IndexPart(idx), Reverse(Digits(check, shift)), if idx >= 39304 then "-" else "",
           Pad(NumToCodeSpec(idx, 0)), NumToCodeSpec(check, shift));
  }

  /** Four groups of four, with dashes behind the first. */
  ghost predicate Grouped(code: string, n: string, dashes: string)
    requires |n| == 16
  {
    code == n[..4] + dashes + n[4..8] + "-" + n[8..12] + "-" + n[12..]
  }

  lemma Groups(h: string, a: string, c: string, dash: string, index: string, check: string)
    requires |h| == |a| == 4 && |c| == 8 && index == dash + a && check == "-" + c[..4] + "-" + c[4..]
    ensures Grouped(h + "-" + index + check, h + a + c, "-" + dash)
  {
    var n := h + a + c;
    assert n[..4] == h && n[4..8] == a && n[8..12] == c[..4] && n[12..] == c[4..];
  }

  /** A dash behind every fourth character, when t have gone before. */
  function Dashed(s: string, t: nat): string {
    if s == [] then [] else [s[0]] + (if (t + 1) % 4 == 0 then "-" else "") + Dashed(s[1..], t + 1)
  }

  lemma {:induction false} DigitsDashed(num: nat, shift: nat, t: nat)
    ensures DashedDigits(num, shift, t) == Dashed(Digits(num, shift), t)
    decreases num
  {
    if num != 0 {
      DigitsDashed(num / SIZE, shift, t + 1);
      Cons(Digits(num, shift)[0], Digits(num / SIZE, shift));
    }
  }

  lemma DashedFour(s: string, t: nat)
    requires t % 4 == 0 && |s| >= 4
    ensures Dashed(s, t) == s[..4] + "-" + Dashed(s[4..], t + 4)
  {
    assert s[1..][1..] == s[2..] && s[2..][1..] == s[3..] && s[3..][1..] == s[4..];
    var rest := Dashed(s[4..], t + 4);
    assert Dashed(s[3..], t + 3) == [s[3]] + "-" + rest;
    assert Dashed(s[2..], t + 2) == [s[2]] + "" + Dashed(s[3..], t + 3);
    assert Dashed(s[1..], t + 1) == [s[1]] + "" + Dashed(s[2..], t + 2);
    FourOnes(s[0], s[1], s[2], s[3], rest);
    assert s[..4] == [s[0], s[1], s[2], s[3]];
  }

  lemma FourOnes(a: char, b: char, c: char, d: char, s: string)
    ensures [a] + "" + ([b] + "" + ([c] + "" + ([d] + "-" + s))) == [a, b, c, d] + "-" + s
  {
  }

  lemma {:induction false} ReverseConcat(a: string, b: string)
    ensures Reverse(a + b) == Reverse(b) + Reverse(a)
    decreases |a|
  {
    if a == [] {
      assert a + b == b && Reverse(b) + [] == Reverse(b);
    } else {
      assert (a + b)[1..] == a[1..] + b;
      ReverseConcat(a[1..], b);
      Assoc(Reverse(b), Reverse(a[1..]), [a[0]]);
    }
  }

  lemma EightDashed(num: nat, shift: nat)
    requires |Digits(num, shift)| == 8
    ensures var c := Reverse(Digits(num, shift));
            NumToCodeSpec(num, shift) == "-" + c[..4] + "-" + c[4..]
  {
    var d := Digits(num, shift);
    DigitsDashed(num, shift, 0);
    DashedEight(d);
    ReverseGroups(d[..4], d[4..]);
    Halves(d, 4);
  }

  lemma DashedEight(d: string)
    requires |d| == 8
    ensures Dashed(d, 0) == d[..4] + "-" + d[4..] + "-"
  {
    DashedFour(d, 0);
    DashedFour(d[4..], 4);
    assert d[4..][..4] == d[4..] && d[4..][4..] == [];
  }

  lemma ReverseGroups(a: string, b: string)
    requires |a| == |b| == 4
    ensures Reverse(a + "-" + b + "-") == "-" + Reverse(b) + "-" + Reverse(a)
    ensures Reverse(a + b)[..4] == Reverse(b) && Reverse(a + b)[4..] == Reverse(a)
  {
    ReverseConcat(a + "-" + b, "-");
    ReverseConcat(a + "-", b);
    ReverseConcat(a, "-");
    ReverseConcat(a, b);
    assert Reverse("-") == "-";
  }

  lemma IndexDashed(idx: nat)
    requires idx <= MAX_INDEX
    ensures Pad(NumToCodeSpec(idx, 0)) == (if idx >= 39304 then "-" else "") + IndexPart(idx)
  {
    IndexDigits(idx);
    if idx >= 39304 {
      DigitsDashed(idx, 0, 0);
      DashedIndex(Digits(idx, 0));
      PadShape(NumToCodeSpec(idx, 0));
      PadShape(Reverse(Digits(idx, 0)));
    } else {
      ShortHasNoDash(idx, 0, 0);
      Neutral(IndexPart(idx));
    }
  }

  lemma IndexDigits(idx: nat)
    requires idx <= MAX_INDEX
    ensures if idx >= 39304 then |Digits(idx, 0)| == 4 else |Digits(idx, 0)| < 4
  {
    assert Pow34(3) == 39304 && Pow34(4) == 1336336;
    DigitCount(idx, 0, 3);
    DigitCount(idx, 0, 4);
  }

  lemma DashedIndex(d: string)
    requires |d| == 4
    ensures Reverse(Dashed(d, 0)) == "-" + Reverse(d)
  {
    DashedFour(d, 0);
    assert d[..4] == d && d[4..] == [] && Dashed(d, 0) == d + "-";
    ReverseConcat(d, "-");
    assert Reverse("-") == "-";
  }

  /** No code is the word Error, which stands for ids and indices out of range. */
  lemma ErrorExact(id: nat, idx: nat, param1: nat, param2: nat, param3: nat)
    ensures Code(id, idx, param1, param2, param3) == "Error" <==> id >= 26 * 26 * 100 || idx > 34 * 34 * 34 * 34 - 1
  {
    if id < MAX_ID && idx <= MAX_INDEX {
      CodeShape(id, idx, param1, param2, param3);
    }
  }

  // ---------------------------------------------------------------- the batch

  /** Main result on the first four characters: two letters that count batches of a hundred ids in
      base 26 from HD on, and the last two digits of the id. */
  lemma HeadExact(id: nat)
    requires id < MAX_ID
    ensures var h := Head(id);
            && |h| == 4 && IsLetter(h[0]) && IsLetter(h[1]) && IsDecimal(h[2]) && IsDecimal(h[3])
            && (h[0] as int - 'A' as int) * 26 + (h[1] as int - 'A' as int)
            == (('H' as int - 'A' as int) * 26 + ('D' as int - 'A' as int) + id / 100) % (26 * 26)
            && (h[2] as int - '0' as int) * 10 + (h[3] as int - '0' as int) == id % 100
  {
    TwoLetters((PREFIX_BASE + id / 100) % 676);
    TwoDigits(id);
  }

  lemma TwoLetters(v: nat)
    requires v < 676
    ensures (Letter(v / 26) as int - 'A' as int) * 26 + (Letter(v % 26) as int - 'A' as int) == v
  {
  }

  lemma TwoDigits(id: nat)
    ensures (Decimal(id % 100 / 10) as int - '0' as int) * 10 + (Decimal(id % 10) as int - '0' as int) == id % 100
  {
    assert id % 100 / 10 * 10 + id % 10 == id % 100;
  }

  // ---------------------------------------------------------------- what the decoder accepts

  lemma {:induction false} PaddedExact(s: string)
    ensures PaddedDigits(s) <==> exists n :: 0 <= n <= |s| && PaddedBy(s, n)
  {
    if s == [] {
      assert PaddedBy(s, 0);
    } else if s[0] == '0' {
      PaddedExact(s[1..]);
      if n :| 0 <= n <= |s[1..]| && PaddedBy(s[1..], n) {
        assert forall i :: 0 < i < |s| ==> s[i] == s[1..][i - 1];
        assert PaddedBy(s, n + 1);
      }
      if n :| 0 <= n <= |s| && PaddedBy(s, n) {
        assert n > 0;
        assert PaddedBy(s[1..], n - 1);
      }
    } else {
      if '0' !in s {
        assert PaddedBy(s, 0);
      }
      if n :| 0 <= n <= |s| && PaddedBy(s, n) {
        assert n == 0;
      }
    }
  }

  /** Zeros in front, and none behind them. */
  ghost predicate PaddedBy(s: string, n: nat)
    requires n <= |s|
  {
    (forall i :: 0 <= i < n ==> s[i] == '0') && forall i :: n <= i < |s| ==> s[i] != '0'
  }

  /** Main result: the decoder accepts a text exactly when, without its dashes, in upper case, and with
      HD in front if it does not start so, it has 16 characters, all of them digits or letters but O,
      digits at the places 2 and 3, and zeros behind that only in front of everything else. The id is
      then what stands at these two places. */
  lemma FilterExact(s: string)
    ensures var u := Upper(Strip(if |s| >= 2 && Upper(s[..2]) == "HD" then s else "HD" + s));
            && (Filter(s).Some? <==>
                  && |u| == 16 && '0' <= u[2] <= '9' && '0' <= u[3] <= '9'
                  && (forall c :: c in u ==> ('0' <= c <= '9' || 'A' <= c <= 'Z') && c != 'O')
                  && exists n :: 0 <= n <= |u[4..]| && PaddedBy(u[4..], n))
            && (Filter(s).Some? ==>
                  && Filter(s).value.code == u
                  && Filter(s).value.id == (u[2] as int - '0' as int) * 10 + (u[3] as int - '0' as int))
  {
    var u := Upper(Strip(Prefixed(s)));
    PrefixedStartsWithHD(s);
    assert u[0] == 'H' && u[1] == 'D' by { assert u[..2][0] == u[0] && u[..2][1] == u[1]; }
    if |u| == 16 {
      PaddedExact(u[4..]);
    }
  }
}
