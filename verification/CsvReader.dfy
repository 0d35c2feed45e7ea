/** CsvReader: the loops of Init and ReadCell, and the table they fill. */
module CsvReader {

  import opened CsvText

  /** Read one cell off the front of line. 0: a comma follows, rest is behind it; 1: the line is
      used up; 2: a quote is open, rest is the line as it was. */
  method ReadCell(line: string) returns (ret: int, cell: string, rest: string)
    ensures match Scan(line, false, "")
            case Cell(c, r) => ret == 0 && cell == c && rest == r
            case Last(c) => ret == 1 && cell == c && rest == ""
            case More => ret == 2 && rest == line
  {
    ghost var all := Scan(line, false, "");
    var quote_count, open, len := 0, false, 0;
    cell := "";
    var i := 0;
    while i < |line|
      invariant 0 <= i <= |line| && len == i && open == (quote_count % 2 == 1)
      invariant all == Scan(line[i..], open, cell)
    {
      assert line[i..][0] == line[i] && line[i..][1..] == line[i + 1..];
      if line[i] == QUOTE {
        if i + 1 < |line| && line[i + 1] == QUOTE {
          assert line[i..][1] == line[i + 1] && line[i..][2..] == line[i + 2..];
          cell := cell + [QUOTE];
          len := len + 2;
          i := i + 1;
        } else {
          quote_count := quote_count + 1;
          open := quote_count % 2 == 1;
          len := len + 1;
        }
      } else if line[i] == COMMA {
        if open {
          cell := cell + [line[i]];
          len := len + 1;
        } else {
          len := len + 1;
          return 0, cell, line[len..];
        }
      } else {
        cell := cell + [line[i]];
        len := len + 1;
      }
      i := i + 1;
    }
    if open {
      return 2, cell, line;
    }
    return 1, cell, "";
  }

  /** getline: the text up to the next newline, and what is behind it. */
  method GetLine(s: string) returns (line: string, rest: string)
    requires s != ""
    ensures line == FirstLine(s) && rest == AfterLine(s)
  {
    FirstLineShort(s);
    FirstLinePlain(s);
    ghost var f := FirstLine(s);
    assert forall j :: 0 <= j < |f| ==> f[j] in f && s[j] == f[j];
    var i := 0;
    while i < |s| && s[i] != '\n'
      invariant 0 <= i <= |f|
    {
      i := i + 1;
    }
    line := s[..i];
    rest := if i < |s| then s[i + 1..] else "";
  }

  class CCsvReader {
    var m_table: seq<seq<string>>

    constructor ()
      ensures m_table == []
    {
      m_table := [];
    }

    /** The inner loop of Init: cells are taken off one until the line is used up or a quote is
        left open. */
    method ReadCells(one: string, oneline: seq<string>) returns (ret: int, one': string, oneline': seq<string>)
      modifies this
      ensures ret == 1 || ret == 2
      ensures Reader(ret != 1, one', oneline', m_table)
           == CsvText.ReadCells(Reader(false, one, oneline, old(m_table)))
    {
      one', oneline' := one, oneline;
      ghost var all := CsvText.ReadCells(Reader(false, one, oneline, m_table));
      ret := 0;
      while ret == 0
        invariant ret == 0 || ret == 1 || ret == 2
        invariant if ret == 0 then all == CsvText.ReadCells(Reader(false, one', oneline', m_table))
                  else all == Reader(ret != 1, one', oneline', m_table)
        decreases ret == 0, |one'|
      {
        ScanShortens(one', false, "");
        var cell;
        ret, cell, one' := ReadCell(one');
        if ret == 0 {
          oneline' := oneline' + [cell];
        } else if ret == 1 {
          oneline' := oneline' + [cell];
          m_table := m_table + [oneline'];
          oneline' := [];
          one' := "";
        }
      }
    }

    method Init(content: string) returns (ok: bool)
      modifies this
      ensures (ok, m_table) == Read(content)
    {
      m_table := [];
      var ss := content;
      var one := "";
      var oneline: seq<string> := [];
      var ret := 1;
      ghost var all := FeedLines(FRESH, Lines(content));
      while ss != ""
        invariant ret == 1 || ret == 2
        invariant ret == 1 ==> one == "" && oneline == []
        invariant all == FeedLines(Reader(ret != 1, one, oneline, m_table), Lines(ss))
        decreases |ss|
      {
        FirstLineShort(ss);
        ghost var r := Reader(ret != 1, one, oneline, m_table);
        assert Lines(ss)[0] == FirstLine(ss) && Lines(ss)[1..] == Lines(AfterLine(ss));
        var line;
        line, ss := GetLine(ss);
        if line != "" && line[0] == '#' {
          continue;
        }
        if line != "" && line[|line| - 1] == '\r' {
          line := line[..|line| - 1];
        }
        if ret == 1 {
          if line == "" {
            continue;
          }
          one := one + line;
        } else {
          one := one + "\n" + line;
        }
        ReadCellsOpen(r.(one := one));
        ret, one, oneline := ReadCells(one, oneline);
      }
      return ret == 1;
    }
  }
}
