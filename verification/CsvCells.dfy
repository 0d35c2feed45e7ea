/** Where the cells of any record lie, and what they hold: told by the quotes before each comma. */
module CsvCells {
  import opened Seqs
  import opened CsvText

  /** The text of a cell: quotes in a row count half, rounded down, and all else is kept. */
  function Unquoted(s: string): string
    decreases |s|
  {
    if s == "" then ""
    else if s[0] != QUOTE then [s[0]] + Unquoted(s[1..])
    else if |s| > 1 && s[1] == QUOTE then [QUOTE] + Unquoted(s[2..])
    else Unquoted(s[1..])
  }

  function Run(n: nat): string {
    seq(n, i => QUOTE)
  }

  lemma RunTail(n: nat, t: string)
    ensures n == 0 ==> Run(n) + t == t
    ensures n == 1 ==> (Run(n) + t)[0] == QUOTE && (Run(n) + t)[1..] == t
    ensures n >= 2 ==> var s := Run(n) + t; s[0] == s[1] == QUOTE && s[2..] == Run(n - 2) + t
  {
  }

  lemma RunLonger(n: nat, u: string)
    ensures [QUOTE] + (Run(n) + u) == Run(n + 1) + u
  {
  }

  lemma {:induction false} QuotesHalve(n: nat, t: string)
    requires t == "" || t[0] != QUOTE
    ensures Unquoted(Run(n) + t) == Run(n / 2) + Unquoted(t)
  {
    RunTail(n, t);
    if n < 2 {
      RunTail(0, Unquoted(t));
    } else {
      QuotesHalve(n - 2, t);
      RunLonger((n - 2) / 2, Unquoted(t));
    }
  }

  lemma OthersStay(c: char, t: string)
    requires c != QUOTE
    ensures Unquoted([c] + t) == [c] + Unquoted(t)
  {
    Cons(c, t);
  }

  // ---------------------------------------------------------------- the first cell

  /** A comma that ends a cell: the quotes before it are even. */
  predicate Ends(s: string, open: bool, p: nat) {
    p < |s| && s[p] == COMMA && (Quotes(s[..p]) % 2 == 1) == open
  }

  /** The place of the first one, or the length. */
  function FirstEnd(s: string, open: bool): (p: nat)
    ensures p <= |s|
  {
    if s == "" || (s[0] == COMMA && !open) then 0 else 1 + FirstEnd(s[1..], open != (s[0] == QUOTE))
  }

  lemma QuotesFirst(s: string, p: nat)
    requires 0 < p <= |s|
    ensures Quotes(s[..p]) == Quotes(s[1..][..p - 1]) + if s[0] == QUOTE then 1 else 0
  {
    assert s[..p][1..] == s[1..][..p - 1];
  }

  lemma {:induction false} FirstEndExact(s: string, open: bool)
    ensures var p := FirstEnd(s, open);
            (p < |s| ==> Ends(s, open, p)) && forall q: nat :: q < p ==> !Ends(s, open, q)
    decreases |s|
  {
    var p := FirstEnd(s, open);
    if s != "" && !(s[0] == COMMA && !open) {
      var open' := open != (s[0] == QUOTE);
      FirstEndExact(s[1..], open');
      if p < |s| {
        QuotesFirst(s, p);
        assert Ends(s[1..], open', p - 1);
      }
      forall q: nat | q < p ensures !Ends(s, open, q) {
        if q > 0 {
          QuotesFirst(s, q);
          assert !Ends(s[1..], open', q - 1);
        }
      }
    }
  }

  /** What the scanner finds, by the place of the first end. */
  predicate Is(s: string, open: bool, cell: string, found: Found) {
    var p := FirstEnd(s, open);
    if p < |s| then found == Cell(cell + Unquoted(s[..p]), s[p + 1..])
    else if (Quotes(s) % 2 == 1) == open then found == Last(cell + Unquoted(s))
    else found == More
  }

  lemma {:induction false} ScanIs(s: string, open: bool, cell: string)
    ensures Is(s, open, cell, Scan(s, open, cell))
    decreases |s|
  {
    if s == "" {
      Neutral(cell);
    } else if s[0] == QUOTE && |s| > 1 && s[1] == QUOTE {
      ScanIs(s[2..], open, cell + [QUOTE]);
      PairOn(s, open, cell, Scan(s, open, cell));
    } else if s[0] == QUOTE {
      ScanIs(s[1..], !open, cell);
      SingleOn(s, open, cell, Scan(s, open, cell));
    } else if s[0] != COMMA || open {
      ScanIs(s[1..], open, cell + [s[0]]);
      CharOn(s, open, cell, Scan(s, open, cell));
    } else {
      Neutral(cell);
    }
  }

  lemma PairOn(s: string, open: bool, cell: string, found: Found)
    requires |s| > 1 && s[0] == s[1] == QUOTE && Is(s[2..], open, cell + [QUOTE], found)
    ensures Is(s, open, cell, found)
  {
    var p := FirstEnd(s[2..], open);
    assert s[1..][1..] == s[2..] && FirstEnd(s[1..], !open) == 1 + p;
    QuotesTwo(s);
    if p < |s| - 2 {
      assert s[..p + 2][2..] == s[2..][..p] && s[p + 3..] == s[2..][p + 1..];
      Assoc(cell, [QUOTE], Unquoted(s[2..][..p]));
    } else {
      Assoc(cell, [QUOTE], Unquoted(s[2..]));
    }
  }

  lemma SingleOn(s: string, open: bool, cell: string, found: Found)
    requires s != "" && s[0] == QUOTE && (|s| == 1 || s[1] != QUOTE) && Is(s[1..], !open, cell, found)
    ensures Is(s, open, cell, found)
  {
    var p := FirstEnd(s[1..], !open);
    if p < |s| - 1 {
      assert s[..p + 1][1..] == s[1..][..p] && s[p + 2..] == s[1..][p + 1..];
      assert |s[..p + 1]| == 1 || s[..p + 1][1] != QUOTE;
    }
  }

  lemma CharOn(s: string, open: bool, cell: string, found: Found)
    requires s != "" && s[0] != QUOTE && (s[0] != COMMA || open) && Is(s[1..], open, cell + [s[0]], found)
    ensures Is(s, open, cell, found)
  {
    var p := FirstEnd(s[1..], open);
    if p < |s| - 1 {
      assert s[..p + 1][1..] == s[1..][..p] && s[p + 2..] == s[1..][p + 1..];
      Assoc(cell, [s[0]], Unquoted(s[1..][..p]));
    } else {
      Assoc(cell, [s[0]], Unquoted(s[1..]));
    }
  }

  /** Main result on any text: a cell ends at the first comma before which the quotes are even; it
      holds what lies before that, without its quotes; without such a comma it is the last one if all
      quotes are even, and otherwise goes on in the next line. */
  lemma CellExact(s: string)
    ensures match Scan(s, false, "")
            case Cell(cell, rest) =>
              exists p: nat :: Ends(s, false, p) && (forall q: nat :: q < p ==> !Ends(s, false, q))
                               && cell == Unquoted(s[..p]) && rest == s[p + 1..]
            case Last(cell) =>
              Quotes(s) % 2 == 0 && (forall q: nat :: !Ends(s, false, q)) && cell == Unquoted(s)
            case More => Quotes(s) % 2 == 1 && forall q: nat :: !Ends(s, false, q)
  {
    ScanIs(s, false, "");
    FirstEndExact(s, false);
    var p := FirstEnd(s, false);
    Neutral(Unquoted(s[..p]));
    Neutral(Unquoted(s));
    if p < |s| {
      assert Ends(s, false, p);
    }
  }
}
