/** The text that CsvReader reads: lines, records of several lines, cells; and a printer. */
module CsvText {

  import opened Seqs
  import opened Wrappers

  const QUOTE: char := '"'
  const COMMA: char := ','

  // ---------------------------------------------------------------- the scanner

  /** A cell before a comma and the text behind it; the last cell; or a quote left open. */
  datatype Found = Cell(cell: string, rest: string) | Last(cell: string) | More

  /** Two quotes in a row are one quote of the cell, anywhere; a single one opens or closes. */
  function Scan(s: string, open: bool, cell: string): Found
    decreases |s|
  {
    if s == "" then if open then More else Last(cell)
    else if s[0] == QUOTE then
      if |s| > 1 && s[1] == QUOTE then Scan(s[2..], open, cell + [QUOTE]) else Scan(s[1..], !open, cell)
    else if s[0] == COMMA && !open then Cell(cell, s[1..])
    else Scan(s[1..], open, cell + [s[0]])
  }

  lemma {:induction false} ScanShortens(s: string, open: bool, cell: string)
    ensures var f := Scan(s, open, cell); f.Cell? ==> |f.rest| < |s|
    decreases |s|
  {
    if s != "" {
      if s[0] == QUOTE {
        if |s| > 1 && s[1] == QUOTE {
          ScanShortens(s[2..], open, cell + [QUOTE]);
        } else {
          ScanShortens(s[1..], !open, cell);
        }
      } else if s[0] != COMMA || open {
        ScanShortens(s[1..], open, cell + [s[0]]);
      }
    }
  }

  /** The reader between two lines. */
  datatype Reader = Reader(open: bool, one: string, row: seq<string>, table: seq<seq<string>>)

  function ReadCells(r: Reader): Reader
    decreases |r.one|
  {
    ScanShortens(r.one, false, "");
    match Scan(r.one, false, "")
    case Cell(cell, rest) => ReadCells(r.(one := rest, row := r.row + [cell]))
    case Last(cell) => Reader(false, "", [], r.table + [r.row + [cell]])
    case More => r.(open := true)
  }

  /** Whether the text was open before does not matter to what is read off it. */
  lemma {:induction false} ReadCellsOpen(r: Reader)
    ensures ReadCells(r) == ReadCells(r.(open := false))
    ensures !ReadCells(r).open ==> ReadCells(r).one == "" && ReadCells(r).row == []
    decreases |r.one|
  {
    ScanShortens(r.one, false, "");
    match Scan(r.one, false, "")
    case Cell(cell, rest) => ReadCellsOpen(r.(one := rest, row := r.row + [cell]));
    case _ =>
  }

  predicate Comment(line: string) {
    line != "" && line[0] == '#'
  }

  function StripCr(line: string): string {
    if line != "" && line[|line| - 1] == '\r' then line[..|line| - 1] else line
  }

  function FeedLine(r: Reader, line: string): Reader {
    if Comment(line) then r else
    var l := StripCr(line);
    if r.open then ReadCells(r.(one := r.one + "\n" + l))
    else if l == "" then r
    else ReadCells(r.(one := r.one + l))
  }

  function FeedLines(r: Reader, lines: seq<string>): Reader
    decreases |lines|
  {
    if lines == [] then r else FeedLines(FeedLine(r, lines[0]), lines[1..])
  }

  const FRESH: Reader := Reader(false, "", [], [])

  // ---------------------------------------------------------------- lines

  function FirstLine(s: string): string {
    if s == "" || s[0] == '\n' then "" else [s[0]] + FirstLine(s[1..])
  }

  lemma {:induction false} FirstLineShort(s: string)
    ensures |FirstLine(s)| <= |s| && FirstLine(s) == s[..|FirstLine(s)|]
    ensures |FirstLine(s)| < |s| ==> s[|FirstLine(s)|] == '\n'
  {
    if s != "" && s[0] != '\n' {
      FirstLineShort(s[1..]);
    }
  }

  /** What is left after getline. */
  function AfterLine(s: string): string {
    FirstLineShort(s);
    if |FirstLine(s)| == |s| then "" else s[|FirstLine(s)| + 1..]
  }

  /** getline yields no line for the empty text, so none after a final newline. */
  function Lines(s: string): seq<string>
    decreases |s|
  {
    FirstLineShort(s);
    if s == "" then [] else [FirstLine(s)] + Lines(AfterLine(s))
  }

  // ---------------------------------------------------------------- the reference: one pass over records

  function Quotes(s: string): nat {
    if s == "" then 0 else (if s[0] == QUOTE then 1 else 0) + Quotes(s[1..])
  }

  /** Join lines into records at the lines where the quotes are even; no cell is looked at. */
  function Gather(lines: seq<string>, partial: Option<string>): (seq<string>, Option<string>)
    decreases |lines|
  {
    if lines == [] then ([], partial)
    else if Comment(lines[0]) || (partial.None? && StripCr(lines[0]) == "") then Gather(lines[1..], partial)
    else
      var text := if partial.None? then StripCr(lines[0]) else partial.value + "\n" + StripCr(lines[0]);
      if Quotes(text) % 2 == 1 then Gather(lines[1..], Some(text))
      else var (records, end) := Gather(lines[1..], None); ([text] + records, end)
  }

  /** One pass over a text: its cells, and the text from the cell that is left open. */
  function Split(s: string): (seq<string>, Option<string>)
    decreases |s|
  {
    ScanShortens(s, false, "");
    match Scan(s, false, "")
    case Cell(cell, rest) => var (cells, open) := Split(rest); ([cell] + cells, open)
    case Last(cell) => ([cell], None)
    case More => ([], Some(s))
  }

  function Table(records: seq<string>): seq<seq<string>> {
    if records == [] then [] else [Split(records[0]).0] + Table(records[1..])
  }

  // ---------------------------------------------------------------- re-scanning is one pass

  lemma {:induction false} ScanOn(s: string, open: bool, cell: string, x: string)
    requires x != "" && x[0] != QUOTE && Scan(s, open, cell).Cell?
    ensures Scan(s + x, open, cell) == Cell(Scan(s, open, cell).cell, Scan(s, open, cell).rest + x)
    decreases |s|
  {
    if s[0] == QUOTE {
      if |s| > 1 && s[1] == QUOTE {
        assert (s + x)[2..] == s[2..] + x;
        ScanOn(s[2..], open, cell + [QUOTE], x);
      } else {
        assert (s + x)[1..] == s[1..] + x;
        ScanOn(s[1..], !open, cell, x);
      }
    } else {
      assert (s + x)[1..] == s[1..] + x;
      if s[0] != COMMA || open {
        ScanOn(s[1..], open, cell + [s[0]], x);
      }
    }
  }

  lemma {:induction false} ReadCellsIsSplit(r: Reader)
    ensures var (cells, open) := Split(r.one);
            ReadCells(r) == if open.Some? then Reader(true, open.value, r.row + cells, r.table)
                            else Reader(false, "", [], r.table + [r.row + cells])
    decreases |r.one|
  {
    ScanShortens(r.one, false, "");
    match Scan(r.one, false, "")
    case Cell(cell, rest) =>
      ReadCellsIsSplit(r.(one := rest, row := r.row + [cell]));
      assert r.row + [cell] + Split(rest).0 == r.row + ([cell] + Split(rest).0);
    case Last(cell) =>
    case More => assert r.row + [] == r.row;
  }

  lemma {:induction false} SplitOn(s: string, x: string)
    requires x != "" && x[0] != QUOTE && Split(s).1.Some?
    ensures var (cells, open) := Split(s);
            Split(s + x) == (cells + Split(open.value + x).0, Split(open.value + x).1)
    decreases |s|
  {
    ScanShortens(s, false, "");
    match Scan(s, false, "")
    case Cell(cell, rest) =>
      ScanOn(s, false, "", x);
      SplitOn(rest, x);
      var (cells, open) := Split(rest);
      Assoc([cell], cells, Split(open.value + x).0);
    case More => Neutral(Split(s + x).0);
  }

  lemma QuotesTwo(s: string)
    requires |s| > 1 && s[0] == s[1] == QUOTE
    ensures Quotes(s) == Quotes(s[2..]) + 2
  {
    assert s[1..][1..] == s[2..];
  }

  /** What the quotes of s say about the end of a scan of it. */
  predicate Parity(s: string, open: bool, scanned: Found) {
    match scanned
    case Cell(c, rest) => Quotes(s) % 2 == (Quotes(rest) + if open then 1 else 0) % 2
    case Last(c) => Quotes(s) % 2 == if open then 1 else 0
    case More => Quotes(s) % 2 == if open then 0 else 1
  }

  /** Two quotes in a row are read as one character. */
  lemma ParityOfTwo(s: string, open: bool, cell: string)
    requires |s| > 1 && s[0] == s[1] == QUOTE && Parity(s[2..], open, Scan(s[2..], open, cell + [QUOTE]))
    ensures Parity(s, open, Scan(s, open, cell))
  {
    QuotesTwo(s);
  }

  lemma {:induction false} ScanParity(s: string, open: bool, cell: string)
    ensures Parity(s, open, Scan(s, open, cell))
    decreases |s|
  {
    if s != "" {
      if s[0] == QUOTE {
        if |s| > 1 && s[1] == QUOTE {
          ScanParity(s[2..], open, cell + [QUOTE]);
          ParityOfTwo(s, open, cell);
        } else {
          ScanParity(s[1..], !open, cell);
        }
      } else if s[0] != COMMA || open {
        ScanParity(s[1..], open, cell + [s[0]]);
      }
    }
  }

  /** A cell is left open exactly when the quotes of the whole text are odd. */
  lemma {:induction false} SplitParity(s: string)
    ensures Split(s).1.Some? <==> Quotes(s) % 2 == 1
    decreases |s|
  {
    ScanShortens(s, false, "");
    ScanParity(s, false, "");
    match Scan(s, false, "")
    case Cell(cell, rest) => SplitParity(rest);
    case _ =>
  }

  /** The reader after a line against the records so far: r.row and r.one are the partial record. */
  ghost predicate Holds(r: Reader, partial: Option<string>) {
    match partial
    case None => !r.open && r.one == "" && r.row == []
    case Some(text) => r.open && Split(text) == (r.row, Some(r.one))
  }

  lemma LineHolds(r: Reader, partial: Option<string>, line: string)
    requires Holds(r, partial) && !Comment(line) && !(partial.None? && StripCr(line) == "")
    ensures var text := if partial.None? then StripCr(line) else partial.value + "\n" + StripCr(line);
            if Quotes(text) % 2 == 1 then Holds(FeedLine(r, line), Some(text)) && FeedLine(r, line).table == r.table
            else Holds(FeedLine(r, line), None) && FeedLine(r, line).table == r.table + [Split(text).0]
  {
    var l := StripCr(line);
    match partial {
      case None =>
        assert "" + l == l;
        ReadCellsIsSplit(r.(one := l));
        SplitParity(l);
        assert [] + Split(l).0 == Split(l).0;
      case Some(text) =>
        var x := "\n" + l;
        assert r.one + "\n" + l == r.one + x && text + "\n" + l == text + x;
        ReadCellsIsSplit(r.(one := r.one + x));
        SplitOn(text, x);
        SplitParity(text + x);
    }
  }

  /** Main result: scanning again from the open cell after each line gives the cells of one pass
      over each whole record, and a record ends where its quotes are even. */
  lemma {:induction false} ReaderIsOnePass(r: Reader, lines: seq<string>, partial: Option<string>)
    requires Holds(r, partial)
    ensures var (records, end) := Gather(lines, partial);
            Holds(FeedLines(r, lines), end) && FeedLines(r, lines).table == r.table + Table(records)
    decreases |lines|
  {
    if lines == [] {
      assert r.table + [] == r.table;
    } else if Comment(lines[0]) || (partial.None? && StripCr(lines[0]) == "") {
      ReaderIsOnePass(r, lines[1..], partial);
    } else {
      LineHolds(r, partial, lines[0]);
      var text := if partial.None? then StripCr(lines[0]) else partial.value + "\n" + StripCr(lines[0]);
      var q := FeedLine(r, lines[0]);
      if Quotes(text) % 2 == 1 {
        ReaderIsOnePass(q, lines[1..], Some(text));
      } else {
        ReaderIsOnePass(q, lines[1..], None);
        var records := Gather(lines[1..], None).0;
        assert ([text] + records)[1..] == records;
        Assoc(r.table, [Split(text).0], Table(records));
      }
    }
  }

  lemma {:induction false} GatherOdd(lines: seq<string>, partial: Option<string>)
    requires partial.Some? ==> Quotes(partial.value) % 2 == 1
    ensures Gather(lines, partial).1.Some? ==> Quotes(Gather(lines, partial).1.value) % 2 == 1
    decreases |lines|
  {
    if lines != [] {
      if Comment(lines[0]) || (partial.None? && StripCr(lines[0]) == "") {
        GatherOdd(lines[1..], partial);
      } else {
        var text := if partial.None? then StripCr(lines[0]) else partial.value + "\n" + StripCr(lines[0]);
        GatherOdd(lines[1..], if Quotes(text) % 2 == 1 then Some(text) else None);
      }
    }
  }

  // ---------------------------------------------------------------- the printer

  /** Every quote twice. */
  function Doubled(s: string): string {
    if s == "" then "" else (if s[0] == QUOTE then [QUOTE, QUOTE] else [s[0]]) + Doubled(s[1..])
  }

  /** In quotes when it has a comma or a newline. */
  function PrintCell(s: string): string {
    if COMMA in s || '\n' in s then [QUOTE] + Doubled(s) + [QUOTE] else Doubled(s)
  }

  function PrintRow(row: seq<string>): string
    requires row != []
    decreases |row|
  {
    if |row| == 1 then PrintCell(row[0]) else PrintCell(row[0]) + [COMMA] + PrintRow(row[1..])
  }

  predicate Rows(rows: seq<seq<string>>) {
    forall i :: 0 <= i < |rows| ==> rows[i] != []
  }

  function PrintTable(rows: seq<seq<string>>): string
    requires Rows(rows)
  {
    if rows == [] then "" else PrintRow(rows[0]) + "\n" + PrintTable(rows[1..])
  }

  // ---------------------------------------------------------------- printed cells are scanned back

  /** What may follow a printed cell. */
  ghost predicate Follows(tail: string) {
    tail == "" || tail[0] == COMMA
  }

  ghost predicate Plain(s: string) {
    COMMA !in s && '\n' !in s
  }

  lemma ScanStep(c: char, d: string, open: bool, cell: string)
    requires open || c != COMMA
    ensures if c == QUOTE then Scan([QUOTE, QUOTE] + d, open, cell) == Scan(d, open, cell + [QUOTE])
            else Scan([c] + d, open, cell) == Scan(d, open, cell + [c])
  {
    assert ([QUOTE, QUOTE] + d)[2..] == d && ([c] + d)[1..] == d;
  }

  lemma {:induction false} ScanDoubled(s: string, tail: string, open: bool, cell: string)
    requires open || COMMA !in s
    ensures Scan(Doubled(s) + tail, open, cell) == Scan(tail, open, cell + s)
    decreases |s|
  {
    if s == "" {
      assert Doubled(s) + tail == tail && cell + s == cell;
    } else {
      var d := Doubled(s[1..]);
      ScanDoubled(s[1..], tail, open, cell + [s[0]]);
      ScanStep(s[0], d + tail, open, cell);
      Assoc(if s[0] == QUOTE then [QUOTE, QUOTE] else [s[0]], d, tail);
      Assoc(cell, [s[0]], s[1..]);
      assert [s[0]] + s[1..] == s;
    }
  }

  /** The opening quote and the quotes that the cell begins with are read in pairs from the front:
      the single quote that opens is the last of them. */
  lemma {:induction false} ScanWrapped(s: string, tail: string, cell: string)
    requires !Plain(s) && (tail == "" || tail[0] != QUOTE)
    ensures Scan([QUOTE] + Doubled(s) + ([QUOTE] + tail), false, cell) == Scan(tail, false, cell + s)
    decreases |s|
  {
    var t := [QUOTE] + Doubled(s) + ([QUOTE] + tail);
    if s[0] == QUOTE {
      assert !Plain(s[1..]) by {
        if COMMA in s { assert COMMA in s[1..]; } else { assert '\n' in s[1..]; }
      }
      assert t[2..] == [QUOTE] + Doubled(s[1..]) + ([QUOTE] + tail);
      ScanWrapped(s[1..], tail, cell + [QUOTE]);
      assert cell + [QUOTE] + s[1..] == cell + s;
    } else {
      assert t[1] == Doubled(s)[0] == s[0];
      assert t[1..] == Doubled(s) + ([QUOTE] + tail);
      ScanDoubled(s, [QUOTE] + tail, true, cell);
      assert ([QUOTE] + tail)[1..] == tail;
    }
  }

  lemma ScanTail(tail: string, cell: string)
    requires Follows(tail)
    ensures Scan(tail, false, cell) == if tail == "" then Last(cell) else Cell(cell, tail[1..])
  {
  }

  lemma ScanPrinted(s: string, tail: string)
    requires Follows(tail)
    ensures Scan(PrintCell(s) + tail, false, "") == if tail == "" then Last(s) else Cell(s, tail[1..])
  {
    ScanBody(s, tail);
    ScanTail(tail, s);
  }

  lemma ScanBody(s: string, tail: string)
    requires Follows(tail)
    ensures Scan(PrintCell(s) + tail, false, "") == Scan(tail, false, s)
  {
    Neutral(s);
    if Plain(s) {
      ScanDoubled(s, tail, false, "");
    } else {
      Assoc([QUOTE] + Doubled(s), [QUOTE], tail);
      ScanWrapped(s, tail, "");
    }
  }

  lemma {:induction false} SplitPrinted(row: seq<string>)
    requires row != []
    ensures Split(PrintRow(row)) == (row, None)
    decreases |row|
  {
    if |row| == 1 {
      assert PrintCell(row[0]) + "" == PrintRow(row);
      ScanPrinted(row[0], "");
      assert row == [row[0]];
    } else {
      var tail := [COMMA] + PrintRow(row[1..]);
      assert PrintCell(row[0]) + tail == PrintRow(row);
      ScanPrinted(row[0], tail);
      assert tail[1..] == PrintRow(row[1..]);
      SplitPrinted(row[1..]);
      assert [row[0]] + row[1..] == row;
    }
  }

  // ---------------------------------------------------------------- printed records stay together

  /** Every newline of s stands where the quotes so far are odd. */
  predicate Inside(s: string, odd: bool) {
    s == "" || (if s[0] == '\n' then odd && Inside(s[1..], odd) else Inside(s[1..], odd != (s[0] == QUOTE)))
  }

  lemma {:induction false} InsideConcat(s: string, t: string, odd: bool)
    ensures Inside(s + t, odd) <==> Inside(s, odd) && Inside(t, odd != (Quotes(s) % 2 == 1))
  {
    if s == "" {
      assert s + t == t;
    } else {
      assert (s + t)[1..] == s[1..] + t;
      InsideConcat(s[1..], t, odd != (s[0] == QUOTE));
    }
  }

  lemma {:induction false} QuotesConcat(s: string, t: string)
    ensures Quotes(s + t) == Quotes(s) + Quotes(t)
  {
    if s == "" {
      assert s + t == t;
    } else {
      assert (s + t)[1..] == s[1..] + t;
      QuotesConcat(s[1..], t);
    }
  }

  lemma {:induction false} DoubledInside(s: string, odd: bool)
    requires odd || '\n' !in s
    ensures Inside(Doubled(s), odd) && Quotes(Doubled(s)) % 2 == 0
  {
    if s != "" {
      DoubledInside(s[1..], odd);
      var d := Doubled(s[1..]);
      if s[0] == QUOTE {
        assert Doubled(s)[1..] == [QUOTE] + d && ([QUOTE] + d)[1..] == d;
      } else {
        assert Doubled(s)[1..] == d;
      }
    }
  }

  lemma OneQuote()
    ensures Quotes([QUOTE]) == 1 && Inside([QUOTE], true) && Inside([QUOTE], false)
  {
    var q := [QUOTE];
    assert q[0] == QUOTE && q[1..] == "";
  }

  lemma CellInside(s: string)
    ensures Inside(PrintCell(s), false) && Quotes(PrintCell(s)) % 2 == 0
  {
    if Plain(s) {
      DoubledInside(s, false);
    } else {
      var d := Doubled(s);
      DoubledInside(s, true);
      OneQuote();
      InsideConcat(d, [QUOTE], true);
      QuotesConcat(d, [QUOTE]);
      InsideConcat([QUOTE], d + [QUOTE], false);
      QuotesConcat([QUOTE], d + [QUOTE]);
      assert [QUOTE] + (d + [QUOTE]) == PrintCell(s);
    }
  }

  lemma {:induction false} RowInside(row: seq<string>)
    requires row != []
    ensures Inside(PrintRow(row), false) && Quotes(PrintRow(row)) % 2 == 0
    decreases |row|
  {
    CellInside(row[0]);
    if |row| > 1 {
      var t := PrintRow(row[1..]);
      RowInside(row[1..]);
      assert ([COMMA] + t)[1..] == t;
      InsideConcat(PrintCell(row[0]), [COMMA] + t, false);
      QuotesConcat(PrintCell(row[0]), [COMMA] + t);
      Assoc(PrintCell(row[0]), [COMMA], t);
    }
  }

  // ---------------------------------------------------------------- the lines of a printed table

  function Pieces(t: string): seq<string>
    decreases |t|
  {
    FirstLineShort(t);
    if |FirstLine(t)| == |t| then [t] else [FirstLine(t)] + Pieces(t[|FirstLine(t)| + 1..])
  }

  lemma Assoc4(p: string, n: string, f: string, u: string)
    ensures p + (n + (f + u)) == (p + n + f) + u
  {
  }

  lemma Assoc5(f: string, n: string, t: string, u: string)
    ensures (f + (n + t)) + n + u == f + n + (t + n + u)
  {
  }

  lemma {:induction false} FirstLineOf(f: string, u: string)
    requires '\n' !in f
    ensures FirstLine(f + "\n" + u) == f
  {
    if f == "" {
      assert f + "\n" + u == "\n" + u;
    } else {
      assert (f + "\n" + u)[1..] == f[1..] + "\n" + u;
      FirstLineOf(f[1..], u);
    }
  }

  lemma {:induction false} FirstLinePlain(t: string)
    ensures '\n' !in FirstLine(t)
  {
    if t != "" && t[0] != '\n' {
      FirstLinePlain(t[1..]);
    }
  }

  lemma NextLine(f: string, u: string)
    requires '\n' !in f
    ensures var s := f + "\n" + u; Lines(s) == [f] + Lines(u)
  {
    var s := f + "\n" + u;
    FirstLineOf(f, u);
    assert s[|f| + 1..] == u;
  }

  lemma {:induction false} LinesOf(t: string, u: string)
    ensures Lines(t + "\n" + u) == Pieces(t) + Lines(u)
    decreases |t|
  {
    var f, t2 := PiecesStep(t);
    if f == t {
      NextLine(t, u);
    } else {
      NextLine(f, t2 + "\n" + u);
      LinesOf(t2, u);
      Assoc5(f, "\n", t2, u);
      Assoc([f], Pieces(t2), Lines(u));
    }
  }

  function PrintedLines(rows: seq<seq<string>>): seq<string>
    requires Rows(rows)
  {
    if rows == [] then [] else Pieces(PrintRow(rows[0])) + PrintedLines(rows[1..])
  }

  lemma {:induction false} TableLines(rows: seq<seq<string>>)
    requires Rows(rows)
    ensures Lines(PrintTable(rows)) == PrintedLines(rows)
  {
    if rows != [] {
      TableLines(rows[1..]);
      LinesOf(PrintRow(rows[0]), PrintTable(rows[1..]));
    }
  }

  /** A line that the reader takes as it is. */
  predicate Clean(line: string) {
    !Comment(line) && StripCr(line) == line
  }

  /** A line that is read as it stands: it does not begin with a number sign and does not end with a
      carriage return. Of the latter one is cut off. */
  lemma CleanExact(line: string)
    ensures Clean(line) <==> line == "" || (line[0] != '#' && line[|line| - 1] != '\r')
    ensures StripCr(line + ['\r']) == line
  {
    assert (line + ['\r'])[..|line|] == line;
  }

  predicate AllClean(lines: seq<string>) {
    forall i :: 0 <= i < |lines| ==> Clean(lines[i])
  }

  lemma GatherStep(line: string, more: seq<string>, partial: Option<string>)
    requires Clean(line) && !(partial.None? && line == "")
    ensures var text := if partial.None? then line else partial.value + "\n" + line;
            Gather([line] + more, partial) == if Quotes(text) % 2 == 1 then Gather(more, Some(text))
                                              else ([text] + Gather(more, None).0, Gather(more, None).1)
  {
    assert ([line] + more)[1..] == more;
  }

  lemma CleanRest(f: string, rest: seq<string>)
    requires AllClean([f] + rest)
    ensures Clean(f) && AllClean(rest)
  {
    assert ([f] + rest)[0] == f;
    assert forall i :: 0 <= i < |rest| ==> rest[i] == ([f] + rest)[i + 1];
  }

  /** The first line of a text, and the text behind it. */
  lemma PiecesStep(t: string) returns (f: string, u: string)
    ensures f == FirstLine(t) && '\n' !in f
    ensures if f == t then Pieces(t) == [t] else t == f + ("\n" + u) && Pieces(t) == [f] + Pieces(u) && |u| < |t|
    ensures AllClean(Pieces(t)) ==> Clean(f) && (f != t ==> AllClean(Pieces(u)))
  {
    f := FirstLine(t);
    FirstLineShort(t);
    FirstLinePlain(t);
    if f == t {
      u := "";
      assert Pieces(t)[0] == f;
    } else {
      u := t[|f| + 1..];
      LineSplit(t, |f|);
      if AllClean(Pieces(t)) {
        CleanRest(f, Pieces(u));
      }
    }
  }

  lemma LineSplit(t: string, n: nat)
    requires n < |t| && t[n] == '\n'
    ensures t == t[..n] + ("\n" + t[n + 1..])
  {
  }

  /** From a partial record on, the lines of u complete it. */
  lemma {:induction false} GatherRest(p: string, u: string, more: seq<string>)
    requires Quotes(p) % 2 == 1 && Quotes(p + ("\n" + u)) % 2 == 0 && Inside(u, true) && AllClean(Pieces(u))
    ensures Gather(Pieces(u) + more, Some(p)) == ([p + ("\n" + u)] + Gather(more, None).0, Gather(more, None).1)
    decreases |u|
  {
    var f, u2 := PiecesStep(u);
    var text := p + "\n" + f;
    if f == u {
      GatherStep(u, more, Some(p));
      Assoc(p, "\n", u);
    } else {
      GatherStep(f, Pieces(u2) + more, Some(p));
      Assoc([f], Pieces(u2), more);
      OddBefore(f, u2, true);
      OddText(p, f);
      Assoc4(p, "\n", f, "\n" + u2);
      GatherRest(text, u2, more);
    }
  }

  lemma OddText(p: string, f: string)
    ensures Quotes(p + "\n" + f) == Quotes(p) + Quotes(f)
  {
    QuotesConcat(p + "\n", f);
    QuotesConcat(p, "\n");
    NoQuote();
  }

  lemma NoQuote()
    ensures Quotes("\n") == 0
  {
    assert "\n"[1..] == "" && Quotes("") == 0;
  }

  lemma OddBefore(f: string, u: string, odd: bool)
    requires Inside(f + ("\n" + u), odd)
    ensures odd != (Quotes(f) % 2 == 1) && Inside(u, true)
  {
    InsideConcat(f, "\n" + u, odd);
    assert ("\n" + u)[1..] == u;
  }

  lemma GatherRow(t: string, more: seq<string>)
    requires Inside(t, false) && Quotes(t) % 2 == 0 && AllClean(Pieces(t))
    ensures Gather(Pieces(t) + more, None)
         == ((if t == "" then [] else [t]) + Gather(more, None).0, Gather(more, None).1)
  {
    var f, u := PiecesStep(t);
    if t == "" {
      assert (Pieces(t) + more)[1..] == more;
      assert [] + Gather(more, None).0 == Gather(more, None).0;
    } else if f == t {
      GatherStep(t, more, None);
    } else {
      OddBefore(f, u, false);
      GatherStep(f, Pieces(u) + more, None);
      Assoc([f], Pieces(u), more);
      GatherRest(f, u, more);
    }
  }

  function NonEmpty(rows: seq<seq<string>>): seq<seq<string>> {
    if rows == [] then [] else (if rows[0] == [""] then [] else [rows[0]]) + NonEmpty(rows[1..])
  }

  lemma EmptyRow(row: seq<string>)
    requires row != []
    ensures PrintRow(row) == "" <==> row == [""]
  {
    if PrintRow(row) == "" {
      assert |row| == 1 && Doubled(row[0]) == "" && row[0] == "";
    }
  }

  lemma {:induction false} CleanResult(rows: seq<seq<string>>)
    requires Rows(rows) && AllClean(PrintedLines(rows))
    ensures var (records, end) := Gather(PrintedLines(rows), None);
            end == None && Table(records) == NonEmpty(rows)
  {
    if rows != [] {
      var t, more := PrintRow(rows[0]), PrintedLines(rows[1..]);
      assert PrintedLines(rows) == Pieces(t) + more;
      assert AllClean(Pieces(t)) by {
        assert forall i :: 0 <= i < |Pieces(t)| ==> PrintedLines(rows)[i] == Pieces(t)[i];
      }
      assert AllClean(more) by {
        assert forall i :: 0 <= i < |more| ==> PrintedLines(rows)[|Pieces(t)| + i] == more[i];
      }
      CleanResult(rows[1..]);
      RowInside(rows[0]);
      GatherRow(t, more);
      EmptyRow(rows[0]);
      SplitPrinted(rows[0]);
      var rest := Gather(more, None).0;
      assert t != "" ==> ([t] + rest)[1..] == rest;
      assert t == "" ==> [] + rest == rest;
    }
  }

  // ---------------------------------------------------------------- nothing else comes back

  function Count(s: string, c: char): nat {
    if s == "" then 0 else (if s[0] == c then 1 else 0) + Count(s[1..], c)
  }

  function CountAll(cells: seq<string>, c: char): nat {
    if cells == [] then 0 else Count(cells[0], c) + CountAll(cells[1..], c)
  }

  function CountTable(table: seq<seq<string>>, c: char): nat {
    if table == [] then 0 else CountAll(table[0], c) + CountTable(table[1..], c)
  }

  lemma {:induction false} CountConcat(s: string, t: string, c: char)
    ensures Count(s + t, c) == Count(s, c) + Count(t, c)
  {
    if s == "" {
      assert s + t == t;
    } else {
      assert (s + t)[1..] == s[1..] + t;
      CountConcat(s[1..], t, c);
    }
  }

  lemma CountOne(s: string, x: char, c: char)
    ensures Count(s + [x], c) == Count(s, c) + if x == c then 1 else 0
  {
    CountConcat(s, [x], c);
    assert [x][1..] == "" && Count("", c) == 0;
  }

  /** Only quotes and commas do not go into cells. */
  lemma {:induction false} ScanCount(s: string, open: bool, cell: string, c: char)
    requires c != QUOTE && c != COMMA
    ensures match Scan(s, open, cell)
            case Cell(d, rest) => Count(d, c) + Count(rest, c) == Count(cell, c) + Count(s, c)
            case Last(d) => Count(d, c) == Count(cell, c) + Count(s, c)
            case More => true
    decreases |s|
  {
    if s != "" {
      if s[0] == QUOTE {
        if |s| > 1 && s[1] == QUOTE {
          assert s[1..][1..] == s[2..];
          CountOne(cell, QUOTE, c);
          ScanCount(s[2..], open, cell + [QUOTE], c);
        } else {
          ScanCount(s[1..], !open, cell, c);
        }
      } else if s[0] != COMMA || open {
        CountOne(cell, s[0], c);
        ScanCount(s[1..], open, cell + [s[0]], c);
      }
    }
  }

  lemma {:induction false} SplitCount(s: string, c: char)
    requires c != QUOTE && c != COMMA && Split(s).1.None?
    ensures CountAll(Split(s).0, c) == Count(s, c)
    decreases |s|
  {
    ScanShortens(s, false, "");
    ScanCount(s, false, "", c);
    match Scan(s, false, "")
    case Cell(cell, rest) => SplitCount(rest, c);
    case Last(cell) =>
  }

  /** What a line gives to its record. */
  function Effect(line: string, c: char): nat {
    if Comment(line) then 0 else Count(StripCr(line), c)
  }

  function Effects(lines: seq<string>, c: char): nat {
    if lines == [] then 0 else Effect(lines[0], c) + Effects(lines[1..], c)
  }

  lemma {:induction false} GatherCount(lines: seq<string>, partial: Option<string>, c: char)
    requires c != QUOTE && c != COMMA && c != '\n'
    ensures CountTable(Table(Gather(lines, partial).0), c)
         <= Effects(lines, c) + if partial.Some? then Count(partial.value, c) else 0
    decreases |lines|
  {
    if lines != [] {
      if Comment(lines[0]) || (partial.None? && StripCr(lines[0]) == "") {
        GatherCount(lines[1..], partial, c);
      } else {
        var l := StripCr(lines[0]);
        var text := if partial.None? then l else partial.value + "\n" + l;
        if partial.Some? {
          CountOne(partial.value, '\n', c);
          CountConcat(partial.value + "\n", l, c);
        }
        if Quotes(text) % 2 == 1 {
          GatherCount(lines[1..], Some(text), c);
        } else {
          GatherCount(lines[1..], None, c);
          SplitParity(text);
          SplitCount(text, c);
          var records := Gather(lines[1..], None).0;
          assert ([text] + records)[1..] == records;
        }
      }
    }
  }

  lemma EffectLess(line: string)
    ensures forall c :: Effect(line, c) <= Count(line, c)
    ensures Comment(line) ==> Effect(line, '#') < Count(line, '#')
    ensures StripCr(line) != line ==> Effect(line, '\r') < Count(line, '\r')
  {
    if StripCr(line) != line {
      assert line == StripCr(line) + ['\r'];
      forall c ensures Count(line, c) == Count(StripCr(line), c) + if c == '\r' then 1 else 0 {
        CountOne(StripCr(line), '\r', c);
      }
    }
  }

  lemma {:induction false} EffectsLess(lines: seq<string>, c: char)
    ensures Effects(lines, c) <= CountAll(lines, c)
    ensures (exists i :: 0 <= i < |lines| && Effect(lines[i], c) < Count(lines[i], c)) ==>
              Effects(lines, c) < CountAll(lines, c)
  {
    if lines != [] {
      EffectLess(lines[0]);
      EffectsLess(lines[1..], c);
    }
  }

  lemma {:induction false} PiecesCount(t: string, c: char)
    requires c != '\n'
    ensures CountAll(Pieces(t), c) == Count(t, c)
    decreases |t|
  {
    var f := FirstLine(t);
    FirstLineShort(t);
    if |f| < |t| {
      var u := t[|f| + 1..];
      assert t == f + ['\n'] + u;
      CountOne(f, '\n', c);
      CountConcat(f + ['\n'], u, c);
      PiecesCount(u, c);
    }
  }

  lemma {:induction false} CountAllConcat(a: seq<string>, b: seq<string>, c: char)
    ensures CountAll(a + b, c) == CountAll(a, c) + CountAll(b, c)
  {
    if a == [] {
      assert a + b == b;
    } else {
      assert (a + b)[1..] == a[1..] + b;
      CountAllConcat(a[1..], b, c);
    }
  }

  lemma {:induction false} PrintedCount(rows: seq<seq<string>>, c: char)
    requires Rows(rows) && c != QUOTE && c != COMMA && c != '\n'
    ensures CountAll(PrintedLines(rows), c) == CountTable(rows, c)
  {
    if rows != [] {
      var t := PrintRow(rows[0]);
      PrintedCount(rows[1..], c);
      CountAllConcat(Pieces(t), PrintedLines(rows[1..]), c);
      PiecesCount(t, c);
      SplitPrinted(rows[0]);
      SplitCount(t, c);
    }
  }

  lemma {:induction false} NonEmptyAll(rows: seq<seq<string>>)
    ensures |NonEmpty(rows)| <= |rows|
    ensures NonEmpty(rows) == rows <==> forall i :: 0 <= i < |rows| ==> rows[i] != [""]
  {
    if rows != [] {
      NonEmptyAll(rows[1..]);
      assert rows == [rows[0]] + rows[1..];
      if rows[0] != [""] {
        assert NonEmpty(rows)[1..] == NonEmpty(rows[1..]);
      } else {
        assert NonEmpty(rows) == NonEmpty(rows[1..]);
      }
    }
  }

  // ---------------------------------------------------------------- the main result

  predicate AllEven(records: seq<string>) {
    records == [] || (Quotes(records[0]) % 2 == 0 && AllEven(records[1..]))
  }

  /** What Init makes of a text. */
  function Read(content: string): (bool, seq<seq<string>>) {
    var r := FeedLines(FRESH, Lines(content));
    (!r.open, r.table)
  }

  /** Main result: Init fails exactly when the last record has an odd number of quotes. */
  lemma FailsAtOddQuotes(content: string)
    ensures var (records, end) := Gather(Lines(content), None);
            Read(content) == (end.None?, Table(records))
            && (end.Some? ==> Quotes(end.value) % 2 == 1)
            && AllEven(records)
  {
    ReaderIsOnePass(FRESH, Lines(content), None);
    GatherOdd(Lines(content), None);
    GatherEven(Lines(content), None);
    assert [] + Table(Gather(Lines(content), None).0) == Table(Gather(Lines(content), None).0);
  }

  lemma {:induction false} GatherEven(lines: seq<string>, partial: Option<string>)
    ensures AllEven(Gather(lines, partial).0)
    decreases |lines|
  {
    if lines != [] {
      if Comment(lines[0]) || (partial.None? && StripCr(lines[0]) == "") {
        GatherEven(lines[1..], partial);
      } else {
        var text := if partial.None? then StripCr(lines[0]) else partial.value + "\n" + StripCr(lines[0]);
        GatherEven(lines[1..], if Quotes(text) % 2 == 1 then Some(text) else None);
        assert ([text] + Gather(lines[1..], None).0)[1..] == Gather(lines[1..], None).0;
      }
    }
  }

  /** Main result: a printed table is read back exactly when no printed line is a comment or ends
      with a carriage return, and no row prints as an empty line. */
  lemma PrintExact(rows: seq<seq<string>>)
    requires Rows(rows)
    ensures Read(PrintTable(rows)) == (true, rows)
        <==> AllClean(Lines(PrintTable(rows))) && forall i :: 0 <= i < |rows| ==> rows[i] != [""]
  {
    var lines := PrintedLines(rows);
    TableLines(rows);
    FailsAtOddQuotes(PrintTable(rows));
    if AllClean(lines) {
      CleanResult(rows);
      NonEmptyAll(rows);
    } else if Read(PrintTable(rows)) == (true, rows) {
      var i :| 0 <= i < |lines| && !Clean(lines[i]);
      EffectLess(lines[i]);
      var c := if Comment(lines[i]) then '#' else '\r';
      EffectsLess(lines, c);
      GatherCount(lines, None, c);
      PrintedCount(rows, c);
      assert false;
    }
  }
}
