/** Gift codes: a two letter batch prefix, two digits, a four digit index in base 34 and eight
    check digits in base 34, with dashes for the reader. */
module GiftCode {
  import opened Wrappers
  import opened Seqs
  import opened Bits

  const TWO32: nat := 0x1_0000_0000
  const TWO64: nat := 0x1_0000_0000_0000_0000
  type uint32 = n: nat | n < TWO32

  /** The digits of base 34: neither '0' nor 'O' is one. */
  const DIGITS: string := "123456789ABCDEFGHIJKLMNPQRSTUVWXYZ"
  const SIZE: nat := 34

  const MAX_ID: nat := 67600
  const MAX_INDEX: nat := 1336335

  // ---------------------------------------------------------------- numbers in base 34

  /** The digits of num, least significant first; shift rotates the digit table. The sum wraps
      around as 64-bit words do. */
  function Digits(num: nat, shift: nat): string {
    if num == 0 then [] else [DIGITS[(num + shift) % TWO64 % SIZE]] + Digits(num / SIZE, shift)
  }

  /** What the loop of NumToCode appends from turn t on: digits, and a dash after every fourth. */
  function DashedDigits(num: nat, shift: nat, t: nat): string {
    if num == 0 then []
    else [DIGITS[(num + shift) % TWO64 % SIZE]] + (if (t + 1) % 4 == 0 then "-" else "") +
         DashedDigits(num / SIZE, shift, t + 1)
  }

  function Reverse(s: string): (r: string)
    ensures |r| == |s|
  {
    if s == [] then [] else Reverse(s[1..]) + [s[0]]
  }

  function NumToCodeSpec(num: nat, shift: nat): string {
    Reverse(DashedDigits(num, shift, 0))
  }

  function Pow34(k: nat): (p: nat)
    ensures p > 0
  {
    if k == 0 then 1 else 34 * Pow34(k - 1)
  }

  /** A number has more than k digits exactly from 34^k on. */
  lemma {:induction false} DigitCount(num: nat, shift: nat, k: nat)
    ensures |Digits(num, shift)| > k <==> Pow34(k) <= num
    decreases num
  {
    if num != 0 && k != 0 {
      DigitCount(num / SIZE, shift, k - 1);
    }
  }

  /** The value of a digit, as the decoder computes it by ranges of letters. */
  function Undigit(c: char): int {
    if '1' <= c <= '9' then c as int - '1' as int
    else if 'A' <= c <= 'N' then c as int - 'A' as int + 9
    else c as int - 'A' as int + 8
  }

  lemma TableRoundTrip(k: nat)
    requires k < SIZE
    ensures Undigit(DIGITS[k]) == k
    ensures '1' <= DIGITS[k] <= '9' || ('A' <= DIGITS[k] <= 'Z' && DIGITS[k] != 'O')
  {
    if k < 9 {
      assert k == 0 || k == 1 || k == 2 || k == 3 || k == 4 || k == 5 || k == 6 || k == 7 || k == 8;
    } else if k < 18 {
      assert k == 9 || k == 10 || k == 11 || k == 12 || k == 13 || k == 14 || k == 15 || k == 16 || k == 17;
    } else if k < 26 {
      assert k == 18 || k == 19 || k == 20 || k == 21 || k == 22 || k == 23 || k == 24 || k == 25;
    } else {
      assert k == 26 || k == 27 || k == 28 || k == 29 || k == 30 || k == 31 || k == 32 || k == 33;
    }
  }

  ghost predicate Digit34(c: char) {
    '1' <= c <= '9' || ('A' <= c <= 'Z' && c != 'O')
  }

  lemma {:induction false} DigitsAreDigits(num: nat, shift: nat)
    ensures forall c :: c in Digits(num, shift) ==> Digit34(c)
    decreases num
  {
    if num != 0 {
      TableRoundTrip((num + shift) % TWO64 % SIZE);
      DigitsAreDigits(num / SIZE, shift);
    }
  }

  // ---------------------------------------------------------------- the check number

  function Sum(id: nat, idx: nat, param1: nat): nat {
    (idx * 1003 + id) * (param1 % 109 + 1)
  }

  function Spread(t: nat, i: nat): nat
    requires i <= 8
  {
    Or(t * Pow2(8 - i), t)
  }

  /** The turns of the spreading loop from turn i on. */
  function SpreadFrom(t: nat, i: nat): nat
    requires i <= 3
    decreases 3 - i
  {
    if i == 3 then t else SpreadFrom(Spread(t, i), i + 1)
  }

  function Mask(param2: nat): nat {
    SpreadFrom(param2 % 100003 + 99881, 0)
  }

  function Check(id: nat, idx: nat, param1: nat, param2: nat): nat {
    Xor(Sum(id, idx, param1), Mask(param2))
  }

  lemma Powers()
    ensures Pow2(6) == 64 && Pow2(7) == 128 && Pow2(8) == 256
    ensures Pow2(25) == 33554432 && Pow2(26) == 67108864
    ensures Pow2(32) == 4294967296 && Pow2(33) == 8589934592
    ensures Pow2(36) == 68719476736 && Pow2(38) == 274877906944 && Pow2(39) == 549755813888
  {
    assert Pow2(4) == 16 && Pow2(6) == 64 && Pow2(8) == 256;
    Pow2Add(8, 8);
    Pow2Add(16, 8);
    Pow2Add(16, 16);
    assert Pow2(25) == 2 * Pow2(24);
    assert Pow2(33) == 2 * Pow2(32);
    Pow2Add(32, 4);
    Pow2Add(32, 6);
  }

  lemma SpreadBounds(t: nat, i: nat, m: nat, n: nat)
    requires i <= 8 && m == Pow2(8 - i) && t * m < Pow2(n)
    ensures t * m <= Spread(t, i) < Pow2(n)
  {
    Product(t, m);
    SpreadOf(t, t * m, n);
  }

  lemma Product(t: nat, m: nat)
    requires m > 0
    ensures t <= t * m
  {
  }

  lemma SpreadOf(t: nat, high: nat, n: nat)
    requires t <= high < Pow2(n)
    ensures high <= Or(high, t) < Pow2(n)
  {
    OrLower(high, t);
    OrBound(high, t, n);
  }

  /** The top bits of the mask: exactly bits 36 and 37 for seeds below 2^17, bit 38 from there on. */
  lemma MaskTop(param2: nat)
    ensures 3 <= Shr(Mask(param2), 36) <= 7
  {
    Powers();
    var t0 := param2 % 100003 + 99881;
    var n := if t0 >= 131072 then 26 else 25;
    SpreadBounds(t0, 0, 256, n);
    var t1 := Spread(t0, 0);
    SpreadBounds(t1, 1, 128, n + 7);
    var t2 := Spread(t1, 1);
    SpreadBounds(t2, 2, 64, n + 13);
    assert Mask(param2) == SpreadFrom(t1, 1) == SpreadFrom(t2, 2) == SpreadFrom(Spread(t2, 2), 3);
    ShrBounds(Mask(param2), 36);
  }

  lemma SumTop(id: nat, idx: nat, param1: nat)
    requires id < MAX_ID && idx <= MAX_INDEX
    ensures Sum(id, idx, param1) <= 146104864836 && Shr(Sum(id, idx, param1), 36) <= 2
  {
    Powers();
    SumBound(idx * 1003 + id, param1 % 109 + 1);
    ShrBounds(Sum(id, idx, param1), 36);
  }

  lemma SumBound(a: nat, b: nat)
    requires a <= 1340411604 && b <= 109
    ensures a * b <= 146104864836
  {
    Scale(a, b, 109);
    Scale(109, a, 1340411604);
  }

  lemma Scale(a: nat, b: nat, c: nat)
    requires b <= c
    ensures a * b <= a * c
  {
  }

  lemma SmallXor(a: nat, b: nat)
    requires a <= 2 && 3 <= b <= 7
    ensures 1 <= Xor(a, b) <= 7
  {
    assert a == 0 || a == 1 || a == 2;
    assert b == 3 || b == 4 || b == 5 || b == 6 || b == 7;
    assert Xor(0, 1) == 1;
  }

  /** The check number always has exactly eight digits in base 34. */
  lemma CheckHasEightDigits(id: nat, idx: nat, param1: nat, param2: nat, shift: nat)
    requires id < MAX_ID && idx <= MAX_INDEX
    ensures Pow34(7) <= Check(id, idx, param1, param2) < Pow34(8)
    ensures |Digits(Check(id, idx, param1, param2), shift)| == 8
  {
    var sum, mask := Sum(id, idx, param1), Mask(param2);
    SumTop(id, idx, param1);
    MaskTop(param2);
    XorHigh(sum, mask, 36);
    SmallXor(Shr(sum, 36), Shr(mask, 36));
    ShrBounds(Xor(sum, mask), 36);
    Powers();
    assert Pow34(4) == 1336336 && Pow34(7) == 52523350144 && Pow34(8) == 1785793904896;
    DigitCount(Xor(sum, mask), shift, 7);
    DigitCount(Xor(sum, mask), shift, 8);
  }

  // ---------------------------------------------------------------- the code and its 16 character normal form

  const PREFIX_BASE: nat := 7 * 26 + 3   // "HD"

  function Letter(k: nat): char
    requires k < 26
  {
    ('A' as int + k) as char
  }

  function Decimal(k: nat): char
    requires k < 10
  {
    ('0' as int + k) as char
  }

  function Prefix(id: nat): string {
    var v := (PREFIX_BASE + id / 100) % 676;
    [Letter(v / 26), Letter(v % 26)]
  }

  function Head(id: nat): string {
    Prefix(id) + [Decimal(id % 100 / 10), Decimal(id % 10)]
  }

  /** Zeros in front up to four characters. */
  function Pad(s: string): (r: string)
    decreases 4 - |s|
  {
    if |s| < 4 then Pad("0" + s) else s
  }

  function Shift(idx: nat, param3: nat): nat {
    Xor(idx, param3) % SIZE + 1
  }

  function Code(id: nat, idx: nat, param1: nat, param2: nat, param3: nat): string {
    if id >= MAX_ID || idx > MAX_INDEX then "Error"
    else Head(id) + "-" + Pad(NumToCodeSpec(idx, 0)) +
         NumToCodeSpec(Check(id, idx, param1, param2), Shift(idx, param3))
  }

  function Strip(s: string): string {
    if s == [] then [] else (if s[0] == '-' then [] else [s[0]]) + Strip(s[1..])
  }

  function UpperChar(c: char): char {
    if 'a' <= c <= 'z' then (c as int - 'a' as int + 'A' as int) as char else c
  }

  function Upper(s: string): (r: string)
    ensures |r| == |s|
  {
    if s == [] then [] else [UpperChar(s[0])] + Upper(s[1..])
  }

  lemma {:induction false} UpperConcat(a: string, b: string)
    ensures Upper(a + b) == Upper(a) + Upper(b)
    decreases |a|
  {
    if a == [] {
      assert a + b == b;
    } else {
      assert (a + b)[1..] == a[1..] + b;
      UpperConcat(a[1..], b);
    }
  }

  function IndexPart(idx: nat): string {
    Pad(Reverse(Digits(idx, 0)))
  }

  function CheckPart(id: nat, idx: nat, param1: nat, param2: nat, param3: nat): string {
    Reverse(Digits(Check(id, idx, param1, param2), Shift(idx, param3)))
  }

  function Normal(id: nat, idx: nat, param1: nat, param2: nat, param3: nat): string {
    Head(id) + IndexPart(idx) + CheckPart(id, idx, param1, param2, param3)
  }

  lemma {:induction false} StripConcat(a: string, b: string)
    ensures Strip(a + b) == Strip(a) + Strip(b)
    decreases |a|
  {
    if a == [] {
      assert a + b == b;
    } else {
      assert (a + b)[1..] == a[1..] + b;
      StripConcat(a[1..], b);
    }
  }

  lemma {:induction false} StripIdentity(s: string)
    requires '-' !in s
    ensures Strip(s) == s
  {
    if s != [] {
      StripIdentity(s[1..]);
    }
  }

  lemma {:induction false} ReverseKeepsChars(s: string)
    ensures forall c :: c in Reverse(s) <==> c in s
  {
    if s != [] {
      ReverseKeepsChars(s[1..]);
      assert s == [s[0]] + s[1..];
    }
  }

  lemma {:induction false} StripReverse(s: string)
    ensures Strip(Reverse(s)) == Reverse(Strip(s))
  {
    if s != [] {
      StripReverse(s[1..]);
      StripConcat(Reverse(s[1..]), [s[0]]);
      if s[0] != '-' {
        assert Strip([s[0]]) == [s[0]];
        assert Reverse([s[0]] + Strip(s[1..])) == Reverse(Strip(s[1..])) + [s[0]];
      } else {
        assert Strip([s[0]]) == [];
        assert Strip(Reverse(s[1..])) + [] == Strip(Reverse(s[1..]));
        assert [] + Strip(s[1..]) == Strip(s[1..]);
      }
    }
  }

  lemma {:induction false} StripDashed(num: nat, shift: nat, t: nat)
    ensures Strip(DashedDigits(num, shift, t)) == Digits(num, shift)
    decreases num
  {
    if num != 0 {
      var d := DIGITS[(num + shift) % TWO64 % SIZE];
      TableRoundTrip((num + shift) % TWO64 % SIZE);
      var dash := if (t + 1) % 4 == 0 then "-" else "";
      var rest := DashedDigits(num / SIZE, shift, t + 1);
      StripDashed(num / SIZE, shift, t + 1);
      StripConcat([d] + dash, rest);
      assert Strip([d] + dash) == [d];
    }
  }

  lemma {:induction false} ShortHasNoDash(num: nat, shift: nat, t: nat)
    requires |Digits(num, shift)| + t < 4
    ensures DashedDigits(num, shift, t) == Digits(num, shift)
    decreases num
  {
    if num != 0 {
      ShortHasNoDash(num / SIZE, shift, t + 1);
    }
  }

  lemma StripNumToCode(num: nat, shift: nat)
    ensures Strip(NumToCodeSpec(num, shift)) == Reverse(Digits(num, shift))
  {
    StripReverse(DashedDigits(num, shift, 0));
    StripDashed(num, shift, 0);
  }

  lemma {:induction false} PadShape(s: string)
    ensures if |s| >= 4 then Pad(s) == s else |Pad(s)| == 4 && Pad(s) == seq(4 - |s|, i => '0') + s
    decreases 4 - |s|
  {
    if |s| < 4 {
      PadShape("0" + s);
      if |s| < 3 {
        assert seq(3 - |s|, i => '0') + ("0" + s) == seq(4 - |s|, i => '0') + s;
      }
    }
  }

  lemma {:induction false} StripLength(s: string)
    ensures |Strip(s)| <= |s|
  {
    if s != [] {
      StripLength(s[1..]);
    }
  }

  lemma StripPadded(idx: nat)
    requires idx <= MAX_INDEX
    ensures Strip(Pad(NumToCodeSpec(idx, 0))) == IndexPart(idx)
    ensures |IndexPart(idx)| == 4
  {
    var digits := Digits(idx, 0);
    StripNumToCode(idx, 0);
    assert Pow34(4) == 1336336;
    DigitCount(idx, 0, 4);
    PadShape(Reverse(digits));
    if |digits| < 4 {
      ShortHasNoDash(idx, 0, 0);
      DigitsAreDigits(idx, 0);
      ReverseKeepsChars(digits);
      StripIdentity(IndexPart(idx));
    } else {
      StripLength(NumToCodeSpec(idx, 0));
      PadShape(NumToCodeSpec(idx, 0));
    }
  }

  lemma NormalLength(id: nat, idx: nat, param1: nat, param2: nat, param3: nat)
    requires id < MAX_ID && idx <= MAX_INDEX
    ensures |Normal(id, idx, param1, param2, param3)| == 16
  {
    StripPadded(idx);
    CheckHasEightDigits(id, idx, param1, param2, Shift(idx, param3));
  }

  /** Without its dashes an accepted code is its normal form, of exactly 16 characters. */
  lemma CodeNormalizes(id: nat, idx: nat, param1: nat, param2: nat, param3: nat)
    requires id < MAX_ID && idx <= MAX_INDEX
    ensures Strip(Code(id, idx, param1, param2, param3)) == Normal(id, idx, param1, param2, param3)
    ensures |Normal(id, idx, param1, param2, param3)| == 16
  {
    var check := Check(id, idx, param1, param2);
    var a, b := Pad(NumToCodeSpec(idx, 0)), NumToCodeSpec(check, Shift(idx, param3));
    StripPadded(idx);
    StripNumToCode(check, Shift(idx, param3));
    HeadHasNoDash(id);
    StripFour(Head(id), a, b);
    NormalLength(id, idx, param1, param2, param3);
  }

  lemma HeadHasNoDash(id: nat)
    requires id < MAX_ID
    ensures '-' !in Head(id)
  {
  }

  lemma StripFour(h: string, a: string, b: string)
    requires '-' !in h
    ensures Strip(h + "-" + a + b) == h + Strip(a) + Strip(b)
  {
    StripDashAfter(h);
    StripConcat(h + "-", a);
    StripConcat(h + "-" + a, b);
  }

  lemma StripDashAfter(h: string)
    requires '-' !in h
    ensures Strip(h + "-") == h
  {
    StripIdentity(h);
    StripConcat(h, "-");
    assert Strip("-") == [] && h + [] == h;
  }

  // ---------------------------------------------------------------- the decoder's view

  datatype Decoded = Decoded(code: string, id: nat, idx: int)
  ghost predicate HasPrefix(s: string) {
    |s| >= 2 && Upper(s[..2]) == "HD"
  }

  ghost function Prefixed(s: string): string {
    if HasPrefix(s) then s else "HD" + s
  }

  function IsDecimal(c: char): bool {
    '0' <= c <= '9'
  }

  function IsLetter(c: char): bool {
    'A' <= c <= 'Z'
  }

  /** Zeros only pad in front: behind the first other character there is none. */
  ghost predicate PaddedDigits(s: string) {
    s == [] || if s[0] == '0' then PaddedDigits(s[1..]) else '0' !in s
  }

  predicate CharFits(c: char) {
    (IsDecimal(c) || IsLetter(c)) && c != 'O'
  }

  ghost predicate WellFormed(u: string) {
    && |u| == 16
    && (forall c :: c in u ==> CharFits(c))
    && PaddedDigits(u[4..])
    && IsLetter(u[0]) && IsLetter(u[1]) && IsDecimal(u[2]) && IsDecimal(u[3])
  }

  function PrefixValue(a: char, b: char): nat
    requires IsLetter(a) && IsLetter(b)
  {
    var v1 := (a as int - 'A' as int) * 26 + (b as int - 'A' as int);
    if v1 >= PREFIX_BASE then v1 - PREFIX_BASE else v1 + 676 - PREFIX_BASE
  }

  function IdOf(u: string): nat
    requires |u| >= 4 && IsLetter(u[0]) && IsLetter(u[1]) && IsDecimal(u[2]) && IsDecimal(u[3])
  {
    PrefixValue(u[0], u[1]) * 100 + (u[2] as int - '0' as int) * 10 + (u[3] as int - '0' as int)
  }

  /** Horner's rule over the index digits; zeros are padding. */
  function DecodeIndex(s: string, value: int): int {
    if s == [] then value
    else DecodeIndex(s[1..], if s[0] == '0' then value else value * 34 + Undigit(s[0]))
  }

  ghost function Filter(s: string): Option<Decoded> {
    var u := Upper(Strip(Prefixed(s)));
    if WellFormed(u) then Some(Decoded(u, IdOf(u), DecodeIndex(u[4..8], 0))) else None
  }

  lemma {:induction false} DecodeAppend(a: string, b: string, value: int)
    ensures DecodeIndex(a + b, value) == DecodeIndex(b, DecodeIndex(a, value))
    decreases |a|
  {
    if a == [] {
      assert a + b == b;
    } else {
      assert (a + b)[1..] == a[1..] + b;
      DecodeAppend(a[1..], b, if a[0] == '0' then value else value * 34 + Undigit(a[0]));
    }
  }

  /** Reading the digits of a number gives the number back. */
  lemma {:induction false} DecodeDigits(num: nat)
    requires num < TWO64
    ensures DecodeIndex(Reverse(Digits(num, 0)), 0) == num
    decreases num
  {
    if num != 0 {
      var d := DIGITS[num % SIZE];
      FirstDigit(num);
      TableRoundTrip(num % SIZE);
      DecodeDigits(num / SIZE);
      DecodeAppend(Reverse(Digits(num / SIZE, 0)), [d], 0);
      assert DecodeIndex([d], num / SIZE) == num / SIZE * 34 + num % SIZE;
    }
  }

  lemma FirstDigit(num: nat)
    requires 0 < num < TWO64
    ensures Reverse(Digits(num, 0)) == Reverse(Digits(num / SIZE, 0)) + [DIGITS[num % SIZE]]
  {
    assert (num + 0) % TWO64 == num;
    assert Digits(num, 0)[1..] == Digits(num / SIZE, 0);
  }

  lemma {:induction false} DecodeZeros(n: nat, s: string)
    ensures DecodeIndex(seq(n, i => '0') + s, 0) == DecodeIndex(s, 0)
  {
    var zeros := seq(n, i => '0');
    if n == 0 {
      assert zeros + s == s;
    } else {
      assert (zeros + s)[1..] == seq(n - 1, i => '0') + s;
      DecodeZeros(n - 1, s);
    }
  }

  lemma DecodeIndexPart(idx: nat)
    requires idx <= MAX_INDEX
    ensures DecodeIndex(IndexPart(idx), 0) == idx
  {
    var r := Reverse(Digits(idx, 0));
    DecodeDigits(idx);
    PadShape(r);
    if |r| < 4 {
      DecodeZeros(4 - |r|, r);
    }
  }

  lemma HeadDecodes(id: nat)
    requires id < MAX_ID
    ensures |Head(id)| == 4 && IdOf(Head(id)) == id
    ensures id < 100 <==> Prefix(id) == "HD"
  {
    var v := (PREFIX_BASE + id / 100) % 676;
    PrefixDecodes(v);
    assert PrefixValue(Prefix(id)[0], Prefix(id)[1]) == id / 100;
    assert id % 100 / 10 * 10 + id % 10 == id % 100;
  }

  lemma PrefixDecodes(v: nat)
    requires v < 676
    ensures PrefixValue(Letter(v / 26), Letter(v % 26))
         == if v >= PREFIX_BASE then v - PREFIX_BASE else v + 676 - PREFIX_BASE
    ensures [Letter(v / 26), Letter(v % 26)] == "HD" <==> v == PREFIX_BASE
  {
  }

  lemma {:induction false} PaddedConcat(a: string, b: string)
    requires PaddedDigits(a) && '0' !in b
    ensures PaddedDigits(a + b)
    decreases |a|
  {
    if a == [] {
      assert a + b == b;
      if b != [] {
        assert b[0] in b;
      }
    } else {
      assert (a + b)[1..] == a[1..] + b;
      if a[0] == '0' {
        PaddedConcat(a[1..], b);
      }
    }
  }

  lemma {:induction false} ZerosArePadding(n: nat)
    ensures PaddedDigits(seq(n, i => '0'))
  {
    if n != 0 {
      assert seq(n, i => '0')[1..] == seq(n - 1, i => '0');
      ZerosArePadding(n - 1);
    }
  }

  /** The index part: padding zeros, then digits. */
  lemma IndexPartShape(idx: nat)
    requires idx <= MAX_INDEX
    ensures |IndexPart(idx)| == 4 && PaddedDigits(IndexPart(idx))
    ensures forall c :: c in IndexPart(idx) ==> c == '0' || Digit34(c)
  {
    var r := Reverse(Digits(idx, 0));
    StripPadded(idx);
    PadShape(r);
    DigitsAreDigits(idx, 0);
    ReverseKeepsChars(Digits(idx, 0));
    if |r| < 4 {
      ZerosArePadding(4 - |r|);
      PaddedConcat(seq(4 - |r|, i => '0'), r);
    } else {
      PaddedConcat([], r);
      assert [] + r == r;
    }
  }

  lemma CheckPartShape(id: nat, idx: nat, param1: nat, param2: nat, param3: nat)
    requires id < MAX_ID && idx <= MAX_INDEX
    ensures var c := CheckPart(id, idx, param1, param2, param3);
            |c| == 8 && forall x :: x in c ==> Digit34(x)
  {
    CheckHasEightDigits(id, idx, param1, param2, Shift(idx, param3));
    DigitsAreDigits(Check(id, idx, param1, param2), Shift(idx, param3));
    ReverseKeepsChars(Digits(Check(id, idx, param1, param2), Shift(idx, param3)));
  }

  lemma PartsWellFormed(h: string, a: string, c: string)
    requires |h| == 4 && IsLetter(h[0]) && IsLetter(h[1]) && IsDecimal(h[2]) && IsDecimal(h[3])
    requires forall x :: x in h ==> CharFits(x)
    requires |a| == 4 && PaddedDigits(a) && forall x :: x in a ==> x == '0' || Digit34(x)
    requires |c| == 8 && forall x :: x in c ==> Digit34(x)
    ensures WellFormed(h + a + c)
  {
    var u := h + a + c;
    assert u[4..] == a + c;
    PaddedConcat(a, c);
    assert u[0] == h[0] && u[1] == h[1] && u[2] == h[2] && u[3] == h[3];
  }

  lemma {:induction false} UpperIdentity(u: string)
    requires forall c :: c in u ==> CharFits(c)
    ensures Upper(u) == u
  {
    if u != [] {
      assert u[0] in u;
      UpperIdentity(u[1..]);
    }
  }

  /** The normal form passes every test of the decoder and carries id and index, if the prefix
      letters do not include the letter the decoder refuses. */
  lemma NormalDecodes(id: nat, idx: nat, param1: nat, param2: nat, param3: nat)
    requires id < MAX_ID && idx <= MAX_INDEX
    ensures var u := Normal(id, idx, param1, param2, param3);
            && |u| == 16 && u[..4] == Head(id) && IdOf(Head(id)) == id
            && u[4..8] == IndexPart(idx) && DecodeIndex(u[4..8], 0) == idx
            && ('O' !in Prefix(id) ==> WellFormed(u) && Upper(u) == u && IdOf(u) == id)
  {
    HeadDecodes(id);
    IndexPartShape(idx);
    CheckPartShape(id, idx, param1, param2, param3);
    DecodeIndexPart(idx);
    if 'O' !in Prefix(id) {
      assert forall c :: c in Head(id) ==> c == Head(id)[0] || c == Head(id)[1] || c == Head(id)[2] || c == Head(id)[3];
      PartsWellFormed(Head(id), IndexPart(idx), CheckPart(id, idx, param1, param2, param3));
      UpperIdentity(Normal(id, idx, param1, param2, param3));
    }
  }

  /** CalcGiftCode is injective in id and index, whatever the parameters are. */
  lemma CodeInjective(id: nat, idx: nat, p1: nat, p2: nat, p3: nat, id': nat, idx': nat, p1': nat, p2': nat, p3': nat)
    requires id < MAX_ID && idx <= MAX_INDEX && id' < MAX_ID && idx' <= MAX_INDEX
    requires Code(id, idx, p1, p2, p3) == Code(id', idx', p1', p2', p3')
    ensures id == id' && idx == idx'
  {
    CodeNormalizes(id, idx, p1, p2, p3);
    CodeNormalizes(id', idx', p1', p2', p3');
    NormalDecodes(id, idx, p1, p2, p3);
    NormalDecodes(id', idx', p1', p2', p3');
  }

  /** entered is a code typed by a user: any letter case, any dashes behind the prefix, with or
      without that prefix. */
  ghost predicate Variant(prefix: string, tail: string, code: string)
  {
    |Strip(code)| >= 2 && (prefix == "" || Upper(prefix) == "HD") && Upper(Strip(tail)) == Strip(code)[2..]
  }

  /** Every such spelling of a code with id below 100 is accepted and gives id and index back. */
  lemma FilterRoundTrip(id: nat, idx: nat, param1: nat, param2: nat, param3: nat, prefix: string, tail: string)
    requires id < 100 && idx <= MAX_INDEX
    requires Variant(prefix, tail, Code(id, idx, param1, param2, param3))
    ensures Filter(prefix + tail) == Some(Decoded(Normal(id, idx, param1, param2, param3), id, idx))
  {
    var u := Normal(id, idx, param1, param2, param3);
    CodeNormalizes(id, idx, param1, param2, param3);
    NormalDecodes(id, idx, param1, param2, param3);
    HeadDecodes(id);
    assert u == "HD" + u[2..];
    var s := prefix + tail;
    if prefix == "" {
      assert s == tail;
      NoAccidentalPrefix(tail, u);
      StripUpper("HD", tail);
    } else {
      assert s[..2] == prefix;
      StripUpper(prefix, tail);
    }
  }

  lemma StripUpper(prefix: string, tail: string)
    requires Upper(prefix) == "HD"
    ensures Upper(Strip(prefix + tail)) == "HD" + Upper(Strip(tail))
  {
    StripConcat(prefix, tail);
    UpperTwo(prefix);
    StripIdentity(prefix);
    UpperConcat(prefix, Strip(tail));
  }

  lemma UpperTwo(two: string)
    requires |two| == 2
    ensures Upper(two) == [UpperChar(two[0]), UpperChar(two[1])]
  {
    assert two[1..] == [two[1]];
    assert Upper([two[1]]) == [UpperChar(two[1])];
  }

  lemma NoAccidentalPrefix(tail: string, u: string)
    requires WellFormed(u) && Upper(Strip(tail)) == u[2..]
    ensures !HasPrefix(tail)
  {
    if |tail| >= 2 {
      assert Upper(tail[..2])[0] == UpperChar(tail[0]);
      if tail[0] != '-' {
        assert Strip(tail)[0] == tail[0];
        assert Upper(Strip(tail))[0] == u[2];
      }
    }
  }

  /** The generator's own output is accepted exactly for ids below 100. */
  lemma FilterAcceptsOwnCode(id: nat, idx: nat, param1: nat, param2: nat, param3: nat)
    requires id < MAX_ID && idx <= MAX_INDEX
    ensures Filter(Code(id, idx, param1, param2, param3)).Some? <==> id < 100
  {
    if id < 100 {
      AcceptsOwn(id, idx, param1, param2, param3);
    } else {
      RefusesOwn(id, idx, param1, param2, param3);
    }
  }

  lemma AcceptsOwn(id: nat, idx: nat, param1: nat, param2: nat, param3: nat)
    requires id < 100 && idx <= MAX_INDEX
    ensures Filter(Code(id, idx, param1, param2, param3)).Some?
  {
    var code, u := Code(id, idx, param1, param2, param3), Normal(id, idx, param1, param2, param3);
    CodeNormalizes(id, idx, param1, param2, param3);
    NormalDecodes(id, idx, param1, param2, param3);
    HeadDecodes(id);
    assert code[..2] == Prefix(id) == "HD";
    StripTail(code);
    UpperTail(u);
    UpperTwo("HD");
    FilterRoundTrip(id, idx, param1, param2, param3, "HD", code[2..]);
  }

  lemma StripTail(code: string)
    requires |code| >= 2 && code[..2] == "HD"
    ensures |Strip(code)| >= 2 && Strip(code)[2..] == Strip(code[2..])
  {
    Halves(code, 2);
    StripConcat(code[..2], code[2..]);
    StripIdentity("HD");
  }

  lemma UpperTail(u: string)
    requires |u| >= 2 && Upper(u) == u
    ensures Upper(u[2..]) == u[2..]
  {
    Halves(u, 2);
    UpperConcat(u[..2], u[2..]);
    assert Upper(u)[2..] == Upper(u[2..]);
  }

  /** Another HD comes before the prefix, and the code is too long. */
  lemma RefusesOwn(id: nat, idx: nat, param1: nat, param2: nat, param3: nat)
    requires 100 <= id < MAX_ID && idx <= MAX_INDEX
    ensures Filter(Code(id, idx, param1, param2, param3)).None?
  {
    var code := Code(id, idx, param1, param2, param3);
    CodeNormalizes(id, idx, param1, param2, param3);
    HeadDecodes(id);
    assert code[..2] == Prefix(id);
    UpperTwo(Prefix(id));
    StripConcat("HD", code);
    StripIdentity("HD");
  }

  lemma PrefixedStartsWithHD(s: string)
    ensures |Upper(Strip(Prefixed(s)))| >= 2 && Upper(Strip(Prefixed(s)))[..2] == "HD"
  {
    var p := Prefixed(s);
    if HasPrefix(s) {
      assert p == s[..2] + s[2..];
      StripUpper(s[..2], s[2..]);
    } else {
      assert Upper("HD") == "HD";
      StripUpper("HD", s);
    }
  }

  /** Whatever the decoder accepts starts with "HD" and decodes to values in range. */
  lemma FilterSound(s: string)
    requires Filter(s).Some?
    ensures Filter(s).value.code[..2] == "HD" && Filter(s).value.id < 100 && 0 <= Filter(s).value.idx <= MAX_INDEX
  {
    var u := Upper(Strip(Prefixed(s)));
    PrefixedStartsWithHD(s);
    assert u[0] == 'H' && u[1] == 'D' by { assert u[..2][0] == u[0] && u[..2][1] == u[1]; }
    DecodeRange(u[4..8], 0, 0);
    assert Pow34(4) == 1336336;
  }

  lemma {:induction false} DecodeRange(s: string, value: nat, k: nat)
    requires forall c :: c in s ==> CharFits(c)
    requires value < Pow34(k)
    ensures 0 <= DecodeIndex(s, value) < Pow34(k + |s|)
    decreases |s|
  {
    if s != [] {
      assert s[0] in s && CharFits(s[0]);
      DecodeRange(s[1..], if s[0] == '0' then value else value * 34 + Undigit(s[0]), k + 1);
    }
  }
}
