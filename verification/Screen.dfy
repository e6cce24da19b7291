/** The VGA text writer: a 25 by 80 buffer that scrolls, as a window onto an append-only list
    of rows. */
module Screen {
  import opened Bytes

  const HEIGHT: nat := 25
  const WIDTH: nat := 80
  const NEWLINE: byte := 10

  datatype Cell = Cell(ascii: byte, color: byte)

  type Row = seq<Cell>

  function Blank(color: byte): (r: Row)
    ensures |r| == WIDTH
  {
    seq(WIDTH, _ => Cell(32, color))
  }

  /** All rows ever shown, the last being the one written to, and the column. */
  datatype Log = Log(rows: seq<Row>, col: nat)

  ghost predicate WellFormed(log: Log) {
    |log.rows| >= HEIGHT && log.col <= WIDTH && forall i: nat :: i < |log.rows| ==> |log.rows[i]| == WIDTH
  }

  ghost function NewLine(log: Log, color: byte): (l: Log)
    requires WellFormed(log)
    ensures WellFormed(l)
  {
    Log(log.rows + [Blank(color)], 0)
  }

  /** One byte: a new line, or a character, for which a full row is left only now. */
  ghost function Put(log: Log, color: byte, b: byte): (l: Log)
    requires WellFormed(log)
    ensures WellFormed(l)
  {
    if b == NEWLINE then NewLine(log, color)
    else
      var at := if log.col >= WIDTH then NewLine(log, color) else log;
      var last := |at.rows| - 1;
      Log(at.rows[last := at.rows[last][at.col := Cell(b, color)]], at.col + 1)
  }

  ghost function PutAll(log: Log, color: byte, s: seq<byte>): (l: Log)
    requires WellFormed(log)
    ensures WellFormed(l)
  {
    if s == [] then log else Put(PutAll(log, color, s[..|s| - 1]), color, s[|s| - 1])
  }

  /** What `write_string` makes of a byte: printable ASCII and newline stay. */
  function Printable(b: byte): byte {
    if 0x20 <= b <= 0x7e || b == NEWLINE then b else 0xfe
  }

  function Sanitized(s: seq<byte>): (r: seq<byte>)
    ensures |r| == |s|
  {
    seq(|s|, i requires 0 <= i < |s| => Printable(s[i]))
  }

  class Writer {
    const chars: array2<Cell>
    const color: byte
    var col: nat
    ghost var log: Log

    /** The buffer has these contents. */
    ghost predicate Shows(rows: seq<Row>)
      reads chars
    {
      && chars.Length0 == HEIGHT && chars.Length1 == WIDTH && |rows| == HEIGHT
      && (forall i: nat :: i < HEIGHT ==> |rows[i]| == WIDTH)
      && (forall i: nat, j: nat :: i < HEIGHT && j < WIDTH ==> chars[i, j] == rows[i][j])
    }

    /** The buffer shows the last 25 rows of the log. */
    ghost predicate Valid()
      reads this, chars
    {
      WellFormed(log) && col == log.col && Shows(log.rows[|log.rows| - HEIGHT..])
    }

    /** The writer on a screen with whatever is on it. */
    constructor (chars: array2<Cell>, color: byte)
      requires chars.Length0 == HEIGHT && chars.Length1 == WIDTH
      ensures Valid() && col == 0 && this.color == color && this.chars == chars
    {
      this.chars, this.color, col := chars, color, 0;
      log := Log(seq(HEIGHT, i requires 0 <= i < HEIGHT reads chars => seq(WIDTH, j requires 0 <= j < WIDTH reads chars => chars[i, j])), 0);
    }

    method ClearRow(row: nat)
      requires chars.Length0 == HEIGHT && chars.Length1 == WIDTH && row < HEIGHT
      modifies chars
      ensures forall i: nat, j: nat :: i < HEIGHT && j < WIDTH ==>
                chars[i, j] == if i == row then Cell(32, color) else old(chars[i, j])
    {
      var c: nat := 0;
      while c < WIDTH
        invariant c <= WIDTH
        invariant forall i: nat, j: nat :: i < HEIGHT && j < WIDTH ==>
                    chars[i, j] == if i == row && j < c then Cell(32, color) else old(chars[i, j])
      {
        chars[row, c] := Cell(32, color);
        c := c + 1;
      }
    }

    /** Move every row up by one; the top one is lost. */
    method Scroll()
      requires chars.Length0 == HEIGHT && chars.Length1 == WIDTH
      modifies chars
      ensures forall i: nat, j: nat :: i < HEIGHT - 1 && j < WIDTH ==> chars[i, j] == old(chars[i + 1, j])
    {
      var row: nat := 1;
      while row < HEIGHT
        invariant 1 <= row <= HEIGHT
        invariant forall i: nat, j: nat :: i < HEIGHT && j < WIDTH ==>
                    chars[i, j] == if i + 1 < row then old(chars[i + 1, j]) else old(chars[i, j])
      {
        var c: nat := 0;
        while c < WIDTH
          invariant c <= WIDTH
          invariant forall i: nat, j: nat :: i < HEIGHT && j < WIDTH ==>
                      chars[i, j] == if i + 1 < row || (i + 1 == row && j < c) then old(chars[i + 1, j]) else old(chars[i, j])
        {
          chars[row - 1, c] := chars[row, c];
          c := c + 1;
        }
        row := row + 1;
      }
    }

    /** Move every row up and clear the bottom one. */
    method ScrollAndClear(ghost rows: seq<Row>)
      requires Shows(rows)
      modifies chars
      ensures Shows(rows[1..] + [Blank(color)])
    {
      Scroll();
      ClearRow(HEIGHT - 1);
    }

    method StartLine()
      requires Valid()
      modifies this, chars
      ensures Valid() && log == NewLine(old(log), color)
    {
      ghost var before := log.rows[|log.rows| - HEIGHT..];
      ScrollAndClear(before);
      col := 0;
      log := NewLine(log, color);
      assert log.rows[|log.rows| - HEIGHT..] == before[1..] + [Blank(color)];
    }

    /** A character in the bottom row. */
    method WriteChar(b: byte)
      requires Valid() && b != NEWLINE && col < WIDTH
      modifies this, chars
      ensures Valid() && log == Put(old(log), color, b)
    {
      chars[HEIGHT - 1, col] := Cell(b, color);
      ghost var last := |log.rows| - 1;
      log := Log(log.rows[last := log.rows[last][col := Cell(b, color)]], col + 1);
      col := col + 1;
    }

    method WriteByte(b: byte)
      requires Valid()
      modifies this, chars
      ensures Valid() && log == Put(old(log), color, b)
    {
      if b == NEWLINE {
        StartLine();
      } else {
        if col >= WIDTH { StartLine(); }
        WriteChar(b);
      }
    }

    /** Whatever is written, the buffer is the window on the log of everything written. */
    method WriteString(s: seq<byte>)
      requires Valid()
      modifies this, chars
      ensures Valid() && log == PutAll(old(log), color, Sanitized(s))
    {
      var i: nat := 0;
      while i < |s|
        invariant i <= |s| && Valid() && log == PutAll(old(log), color, Sanitized(s[..i]))
      {
        assert Sanitized(s[..i + 1])[..i] == Sanitized(s[..i]);
        if 0x20 <= s[i] <= 0x7e || s[i] == NEWLINE { WriteByte(s[i]); } else { WriteByte(0xfe); }
        i := i + 1;
      }
      assert s[..|s|] == s;
    }
  }

  // ---- What a text looks like ----

  /** The text split at its newlines. */
  ghost function Lines(s: seq<byte>): (ls: seq<seq<byte>>)
    ensures ls != []
  {
    if s == [] then [[]] else Extended(Lines(s[..|s| - 1]), s[|s| - 1])
  }

  /** The lines of a text with one more byte. */
  ghost function Extended(ls: seq<seq<byte>>, b: byte): (ls': seq<seq<byte>>)
    requires ls != []
    ensures ls' != []
  {
    if b == NEWLINE then ls + [[]] else ls[..|ls| - 1] + [ls[|ls| - 1] + [b]]
  }

  ghost function Joined(ls: seq<seq<byte>>): seq<byte>
    requires ls != []
  {
    if |ls| == 1 then ls[0] else Joined(ls[..|ls| - 1]) + [NEWLINE] + ls[|ls| - 1]
  }

  lemma JoinedNext(ls: seq<seq<byte>>, b: byte)
    requires ls != []
    ensures Joined(Extended(ls, b)) == Joined(ls) + [b]
  {
    var n, ls' := |ls|, Extended(ls, b);
    if b == NEWLINE {
      assert ls'[..n] == ls;
    } else if n > 1 {
      assert ls'[..n - 1] == ls[..n - 1];
    }
  }

  lemma NoNewlineNext(ls: seq<seq<byte>>, b: byte)
    requires ls != [] && forall i: nat :: i < |ls| ==> NEWLINE !in ls[i]
    ensures forall i: nat :: i < |Extended(ls, b)| ==> NEWLINE !in Extended(ls, b)[i]
  {}

  /** The lines, joined by newlines, are the text, and none of them contains a newline. */
  lemma {:induction false} LinesAreText(s: seq<byte>)
    ensures Joined(Lines(s)) == s
    ensures forall i: nat :: i < |Lines(s)| ==> NEWLINE !in Lines(s)[i]
  {
    if s != [] {
      var ls, b := Lines(s[..|s| - 1]), s[|s| - 1];
      LinesAreText(s[..|s| - 1]);
      JoinedNext(ls, b);
      NoNewlineNext(ls, b);
    }
  }

  /** Number of rows a line of n characters takes: full rows of 80 and what is left, at least one. */
  function RowCount(n: nat): nat {
    if n == 0 then 1 else (n + WIDTH - 1) / WIDTH
  }

  /** Row r of a line: characters 80r to 80r + 79, blank where the line has ended. */
  function RowOf(line: seq<byte>, color: byte, r: nat): (row: Row)
    ensures |row| == WIDTH
  {
    seq(WIDTH, c requires 0 <= c => if WIDTH * r + c < |line| then Cell(line[WIDTH * r + c], color) else Cell(32, color))
  }

  function RowsOf(line: seq<byte>, color: byte): (rows: seq<Row>)
    ensures |rows| == RowCount(|line|)
  {
    seq(RowCount(|line|), r requires 0 <= r => RowOf(line, color, r))
  }

  /** The rows of all lines. */
  ghost function Layout(ls: seq<seq<byte>>, color: byte): (rows: seq<Row>)
    ensures ls != [] ==> rows != []
  {
    if ls == [] then [] else Layout(ls[..|ls| - 1], color) + RowsOf(ls[|ls| - 1], color)
  }

  /** The column after a line of n characters: 80, not 0, if it fills its last row. */
  function Column(n: nat): nat {
    n - WIDTH * (RowCount(n) - 1)
  }

  lemma RowCountNext(n: nat)
    ensures Column(n) <= WIDTH
    ensures RowCount(n + 1) == if Column(n) == WIDTH then RowCount(n) + 1 else RowCount(n)
    ensures Column(n + 1) == if Column(n) == WIDTH then 1 else Column(n) + 1
  {}

  /** Adding a character to a line fills the next cell of its last row, or of a new one. */
  lemma RowsOfNext(line: seq<byte>, color: byte, b: byte)
    ensures var rows, rows', last, c := RowsOf(line, color), RowsOf(line + [b], color), RowCount(|line|) - 1, Column(|line|);
            rows' == if c == WIDTH then rows + [Blank(color)[0 := Cell(b, color)]] else rows[last := rows[last][c := Cell(b, color)]]
  {
    var n := |line|;
    RowCountNext(n);
    var rows, rows', last, c := RowsOf(line, color), RowsOf(line + [b], color), RowCount(n) - 1, Column(n);
    forall r: nat | r < RowCount(n) && (c == WIDTH || r < last) ensures rows'[r] == rows[r] {
      assert WIDTH * r + WIDTH <= n;
    }
    if c == WIDTH {
      assert rows'[RowCount(n)] == Blank(color)[0 := Cell(b, color)];
    } else {
      assert rows'[last] == rows[last][c := Cell(b, color)];
    }
  }

  lemma EmptyLine(color: byte)
    ensures RowsOf([], color) == [Blank(color)]
  {
    assert RowOf([], color, 0) == Blank(color);
  }

  /** Writing any text at the start of a blank row shows its lines, each broken into rows of 80
      characters: a line that exactly fills a row takes that row only. */
  lemma {:induction false} TextIsLaidOut(log: Log, color: byte, s: seq<byte>)
    requires WellFormed(log) && log.col == 0 && log.rows[|log.rows| - 1] == Blank(color)
    ensures var ls := Lines(s);
            PutAll(log, color, s) == Log(log.rows[..|log.rows| - 1] + Layout(ls, color), Column(|ls[|ls| - 1]|))
  {
    var above := log.rows[..|log.rows| - 1];
    if s == [] {
      EmptyLine(color);
      assert Layout([[]], color) == [Blank(color)];
    } else {
      var init, b := s[..|s| - 1], s[|s| - 1];
      TextIsLaidOut(log, color, init);
      NextByteIsLaidOut(above, Lines(init), color, b, PutAll(log, color, init));
    }
  }

  lemma NextByteIsLaidOut(above: seq<Row>, ls: seq<seq<byte>>, color: byte, b: byte, log: Log)
    requires ls != [] && WellFormed(log) && log == Log(above + Layout(ls, color), Column(|ls[|ls| - 1]|))
    ensures var ls' := Extended(ls, b);
            Put(log, color, b) == Log(above + Layout(ls', color), Column(|ls'[|ls'| - 1]|))
  {
    if b == NEWLINE {
      LayoutLast(ls, [], color);
      EmptyLine(color);
      assert log.rows + [Blank(color)] == above + (Layout(ls, color) + [Blank(color)]);
    } else {
      NextCharIsLaidOut(above, ls[..|ls| - 1], ls[|ls| - 1], color, b, log);
    }
  }

  lemma NextCharIsLaidOut(above: seq<Row>, init: seq<seq<byte>>, line: seq<byte>, color: byte, b: byte, log: Log)
    requires b != NEWLINE && WellFormed(log) && log == Log(above + (Layout(init, color) + RowsOf(line, color)), Column(|line|))
    ensures Put(log, color, b) == Log(above + Layout(init + [line + [b]], color), Column(|line| + 1))
  {
    RowsOfNext(line, color, b);
    RowCountNext(|line|);
    var up, rows, rows' := above + Layout(init, color), RowsOf(line, color), RowsOf(line + [b], color);
    Regrouped(above, Layout(init, color), rows);
    PutInLastRow(up, rows, rows', color, b, log);
    LayoutLast(init, line + [b], color);
    Regrouped(above, Layout(init, color), rows');
  }

  lemma Regrouped(a: seq<Row>, b: seq<Row>, c: seq<Row>)
    ensures a + (b + c) == a + b + c
  {}

  lemma LayoutLast(init: seq<seq<byte>>, line: seq<byte>, color: byte)
    ensures Layout(init + [line], color) == Layout(init, color) + RowsOf(line, color)
  {
    assert (init + [line])[..|init|] == init;
  }

  lemma PutInLastRow(up: seq<Row>, rows: seq<Row>, rows': seq<Row>, color: byte, b: byte, log: Log)
    requires WellFormed(log) && rows != [] && log.rows == up + rows && b != NEWLINE
    requires rows' == if log.col == WIDTH then rows + [Blank(color)[0 := Cell(b, color)]]
                      else rows[|rows| - 1 := log.rows[|log.rows| - 1][log.col := Cell(b, color)]]
    ensures Put(log, color, b) == Log(up + rows', if log.col == WIDTH then 1 else log.col + 1)
  {
    if log.col == WIDTH {
      assert up + rows' == log.rows + [Blank(color)[0 := Cell(b, color)]];
    }
  }

  lemma {:induction false} PutAllConcat(log: Log, color: byte, s: seq<byte>, t: seq<byte>)
    requires WellFormed(log)
    ensures PutAll(log, color, s + t) == PutAll(PutAll(log, color, s), color, t)
  {
    if t == [] {
      assert s + t == s;
    } else {
      PutAllConcat(log, color, s, t[..|t| - 1]);
      assert (s + t)[..|s + t| - 1] == s + t[..|t| - 1];
    }
  }

  /** Whatever was on the screen and wherever the cursor stood: what is written after a newline
      is laid out below all that was written before. */
  lemma AfterNewlineIsLaidOut(log: Log, color: byte, s: seq<byte>, t: seq<byte>)
    requires WellFormed(log)
    ensures var ls := Lines(t);
            PutAll(log, color, s + [NEWLINE] + t) ==
              Log(PutAll(log, color, s).rows + Layout(ls, color), Column(|ls[|ls| - 1]|))
  {
    var before := PutAll(log, color, s);
    PutAllConcat(log, color, s + [NEWLINE], t);
    assert (s + [NEWLINE])[..|s|] == s;
    var start := PutAll(log, color, s + [NEWLINE]);
    assert start == NewLine(before, color);
    TextIsLaidOut(start, color, t);
    assert start.rows[..|start.rows| - 1] == before.rows;
  }

  // ---- Strings ----

  /** What is shown for a byte of a line: itself if it is printable ASCII, and else the symbol 0xfe. */
  ghost predicate ShownAs(line: seq<byte>, shown: seq<byte>) {
    |shown| == |line| && forall k: nat :: k < |line| ==> shown[k] == if 0x20 <= line[k] <= 0x7e then line[k] else 0xfe
  }

  ghost predicate AllShownAs(ls: seq<seq<byte>>, shown: seq<seq<byte>>) {
    |shown| == |ls| && forall i: nat :: i < |ls| ==> ShownAs(ls[i], shown[i])
  }

  lemma NextByteIsShown(ls: seq<seq<byte>>, shown: seq<seq<byte>>, b: byte)
    requires ls != [] && AllShownAs(ls, shown)
    ensures AllShownAs(Extended(ls, b), Extended(shown, Printable(b)))
  {
    var n := |ls| - 1;
    assert ShownAs(ls[n], shown[n]);
    if b != NEWLINE { assert ShownAs(ls[n] + [b], shown[n] + [Printable(b)]); }
  }

  /** Newlines stay newlines, and nothing else becomes one. */
  lemma {:induction false} LinesStay(s: seq<byte>)
    ensures AllShownAs(Lines(s), Lines(Sanitized(s)))
  {
    if s == [] {
      assert Sanitized(s) == [];
    } else {
      LinesStay(s[..|s| - 1]);
      assert Sanitized(s)[..|s| - 1] == Sanitized(s[..|s| - 1]);
      NextByteIsShown(Lines(s[..|s| - 1]), Lines(Sanitized(s[..|s| - 1])), s[|s| - 1]);
    }
  }

  /** Writing any string at the start of a blank row shows the lines of the string, with the bytes
      that cannot be shown replaced, each line broken into rows of 80. */
  lemma StringIsLaidOut(log: Log, color: byte, s: seq<byte>) returns (shown: seq<seq<byte>>)
    requires WellFormed(log) && log.col == 0 && log.rows[|log.rows| - 1] == Blank(color)
    ensures shown != [] && AllShownAs(Lines(s), shown)
    ensures PutAll(log, color, Sanitized(s)) == Log(log.rows[..|log.rows| - 1] + Layout(shown, color), Column(|shown[|shown| - 1]|))
  {
    shown := Lines(Sanitized(s));
    LinesStay(s);
    TextIsLaidOut(log, color, Sanitized(s));
  }
}
