/** The scrollback of a kernel terminal: terminal_put_char, terminal_handle_new_line,
    terminal_scroll and the plain-text part of terminal_parse_data in
    source/drivers/char/terminal/terminal.c.

    At most 300 rows are kept. A row is a pointer to a buffer of 80 cells and the last column
    written; when the rows are used up they move down by one and the oldest buffer becomes
    the newest row's, old contents and all. The reference is a log that is never cut. */
module Scrollback {
  import opened Options
  import opened Bytes

  const WIDTH := 80
  const HEIGHT := 25
  const MAX_LINES := 300

  const BACKSPACE: byte := 8
  const NEWLINE: byte := 10
  const RETURN: byte := 13
  const ESCAPE: byte := 27
  const SPACE: byte := 32

  /** terminal_buffer_item_t */
  datatype Cell = Cell(character: byte, fg: int, bg: int)

  const BLANK := Cell(SPACE, 7, 0)

  // ---------------------------------------------------------------------------------------
  // The reference: an unbounded log of lines, wrapped at the screen's width

  /** The last line is the current one. */
  datatype Log = Log(lines: seq<seq<Cell>>, column: nat)

  ghost predicate LogOk(log: Log) {
    log.lines != [] && log.column <= |Current(log)| && log.column < WIDTH
  }

  ghost function Current(log: Log): seq<Cell>
    requires log.lines != []
  {
    log.lines[|log.lines| - 1]
  }

  ghost function LogNewLine(log: Log): Log {
    Log(log.lines + [[]], 0)
  }

  /** A character goes to the cursor's column, over what was there. */
  ghost function Overwrite(line: seq<Cell>, column: nat, cell: Cell): (r: seq<Cell>)
    requires column <= |line|
    ensures column < |r|
  {
    if column < |line| then line[column := cell] else line + [cell]
  }

  ghost function LogPut(log: Log, cell: Cell): (r: Log)
    requires LogOk(log)
    ensures LogOk(r)
  {
    var line := Overwrite(Current(log), log.column, cell);
    var written := Log(log.lines[|log.lines| - 1 := line], log.column + 1);
    if log.column + 1 == WIDTH then LogNewLine(written) else written
  }

  /** char is signed: only 32 to 127 count as printable. A backspace stays on its line; other
      control codes do nothing. */
  ghost function LogByte(log: Log, c: byte, fg: int, bg: int): (r: Log)
    requires LogOk(log)
    ensures LogOk(r)
  {
    if c == RETURN then log.(column := 0)
    else if c == BACKSPACE then log.(column := if log.column > 0 then log.column - 1 else 0)
    else if c == NEWLINE then LogNewLine(log)
    else if SPACE <= c < 128 then LogPut(log, Cell(c, fg, bg))
    else log
  }

  ghost function LogBytes(log: Log, data: seq<byte>, i: nat, fg: int, bg: int): (r: Log)
    requires LogOk(log) && i <= |data|
    ensures LogOk(r)
  {
    if i == 0 then log else LogByte(LogBytes(log, data, i - 1, fg, bg), data[i - 1], fg, bg)
  }

  /** What happens to a terminal: output of programs, or the user scrolling. */
  datatype Event = Text(data: seq<byte>) | Wheel(offset: int)

  /** The log after the first i events: scrolling leaves no trace in it. */
  ghost function LogEvents(log: Log, events: seq<Event>, i: nat, fg: int, bg: int): (r: Log)
    requires LogOk(log) && i <= |events|
    ensures LogOk(r)
    decreases i
  {
    if i == 0 then log
    else
      var before := LogEvents(log, events, i - 1, fg, bg);
      match events[i - 1]
      case Text(data) => LogBytes(before, data, |data|, fg, bg)
      case Wheel(_) => before
  }

  // ---------------------------------------------------------------------------------------
  // Rows and buffers

  /** terminal_buffer_t; a buffer is known by its address. */
  datatype Row = Row(data: Option<nat>, lastDirty: int)

  type Memory = map<nat, seq<Cell>>

  ghost predicate RowOk(memory: Memory, row: Row) {
    && -1 <= row.lastDirty < WIDTH
    && (row.lastDirty >= 0 ==> row.data.Some?)
    && (row.data.Some? ==> row.data.value in memory && |memory[row.data.value]| == WIDTH)
  }

  /** The part of a row that is drawn. */
  ghost function Shown(memory: Memory, row: Row): seq<Cell>
    requires RowOk(memory, row)
  {
    if row.lastDirty < 0 then [] else memory[row.data.value][..row.lastDirty + 1]
  }

  ghost predicate Unshared(rows: seq<Row>) {
    forall i, j :: 0 <= i < j < |rows| && rows[i].data.Some? ==> rows[i].data != rows[j].data
  }

  /** The first n rows show the last n lines of the log. */
  ghost predicate ShowsTail(memory: Memory, rows: seq<Row>, n: nat, lines: seq<seq<Cell>>)
    requires forall i :: 0 <= i < |rows| ==> RowOk(memory, rows[i])
  {
    && n <= |rows| && n <= |lines|
    && forall i :: 0 <= i < n ==> Shown(memory, rows[i]) == lines[|lines| - n + i]
  }

  class Terminal {
    var rows: seq<Row>
    var memory: Memory
    /** kmalloc hands out addresses not seen before. */
    var nextAddress: nat
    var lineCount: nat
    var cursorRow: nat
    var cursorColumn: nat
    var startLine: nat
    const fg: int
    const bg: int
    /** Everything that was ever written. */
    ghost var log: Log

    ghost predicate RowsOk()
      reads this`rows, this`memory, this`lineCount, this`nextAddress
    {
      && |rows| == MAX_LINES
      && Unshared(rows)
      && (forall i :: 0 <= i < MAX_LINES ==> RowOk(memory, rows[i]))
      && (forall i :: lineCount <= i < MAX_LINES ==> rows[i].lastDirty == -1)
      && (forall a :: a in memory ==> a < nextAddress)
    }

    ghost predicate CursorOk()
      reads this
    {
      && 1 <= lineCount <= MAX_LINES
      && cursorRow == lineCount - 1
      && startLine <= (if lineCount > HEIGHT then lineCount - HEIGHT else 0)
    }

    /** The cursor's row is in the window. */
    predicate Following()
      reads this`startLine, this`cursorRow
    {
      cursorRow < startLine + HEIGHT
    }

    /** The rows are used up and the user has scrolled back by one: the next newline, which moves the
        rows and not the cursor, takes the window along all the same. */
    predicate OneBehind()
      reads this`startLine, this`cursorRow, this`lineCount
    {
      lineCount == MAX_LINES && startLine + HEIGHT == cursorRow
    }

    ghost predicate Valid()
      reads this
    {
      && CursorOk()
      && RowsOk()
      && LogOk(log)
      && cursorColumn == log.column
      && lineCount == (if |log.lines| < MAX_LINES then |log.lines| else MAX_LINES)
      && ShowsTail(memory, rows, lineCount, log.lines)
    }

    /** init_terminals, for one terminal. */
    constructor ()
      ensures Valid() && log == Log([[]], 0) && startLine == 0
    {
      rows := seq(MAX_LINES, _ => Row(None, -1));
      memory := map[];
      nextAddress := 0;
      lineCount := 1;
      cursorRow, cursorColumn, startLine := 0, 0, 0;
      fg, bg := 7, 0;
      log := Log([[]], 0);
    }

    /** The row part of terminal_handle_new_line: the current row ends, a new one begins. */
    method AdvanceRow()
      requires CursorOk() && RowsOk() && log.lines != [] && ShowsTail(memory, rows, lineCount, log.lines)
      requires lineCount == if |log.lines| < MAX_LINES then |log.lines| else MAX_LINES
      modifies this`rows, this`lineCount
      ensures RowsOk()
      ensures lineCount == if |log.lines| + 1 < MAX_LINES then |log.lines| + 1 else MAX_LINES
      ensures ShowsTail(memory, rows, lineCount, log.lines + [[]])
    {
      if lineCount == MAX_LINES {
        var newData := rows[0].data;
        ghost var before := rows;
        rows := rows[1..] + [Row(newData, -1)];
        assert forall i :: 0 <= i < MAX_LINES - 1 ==> rows[i] == before[i + 1];
      } else if cursorRow == lineCount - 1 {
        lineCount := lineCount + 1;
      }
    }

    /** terminal_handle_new_line */
    method HandleNewLine()
      requires CursorOk() && RowsOk() && log.lines != [] && ShowsTail(memory, rows, lineCount, log.lines)
      requires lineCount == if |log.lines| < MAX_LINES then |log.lines| else MAX_LINES
      modifies this`rows, this`lineCount, this`cursorRow, this`cursorColumn, this`startLine, this`log
      ensures Valid() && log == LogNewLine(old(log))
      ensures old(Following()) ==> Following()
      ensures !old(Following()) && !old(OneBehind()) ==> startLine == old(startLine) && !Following() && !OneBehind()
      ensures old(OneBehind()) ==> startLine == old(startLine) + 1 && Following()
    {
      hide RowsOk, ShowsTail;
      cursorColumn := 0;
      AdvanceRow();
      if cursorRow < lineCount - 1 {
        cursorRow := cursorRow + 1;
      }
      if startLine + HEIGHT == cursorRow {
        startLine := startLine + 1;
      }
      log := LogNewLine(log);
    }

    /** The start of terminal_put_char: the current row gets a buffer if it has none. */
    method EnsureBuffer()
      requires Valid()
      modifies this`rows, this`memory, this`nextAddress
      ensures Valid() && rows[cursorRow].data.Some?
    {
      if rows[cursorRow].data == None {
        ghost var before, m := rows, memory;
        memory := memory[nextAddress := seq(WIDTH, _ => BLANK)];
        rows := rows[cursorRow := Row(Some(nextAddress), rows[cursorRow].lastDirty)];
        nextAddress := nextAddress + 1;
        forall i | 0 <= i < MAX_LINES
          ensures RowOk(memory, rows[i]) && Shown(memory, rows[i]) == Shown(m, before[i])
        {
          assert RowOk(m, before[i]);
        }
      }
    }

    /** The cell written by terminal_put_char, without the wrap at the end of the row. */
    method WriteCell(cell: Cell)
      requires Valid() && rows[cursorRow].data.Some?
      modifies this`rows, this`memory, this`cursorColumn, this`log
      ensures CursorOk() && RowsOk() && cursorColumn == old(cursorColumn) + 1
      ensures log == Log(old(log).lines[|old(log).lines| - 1 := Overwrite(Current(old(log)), old(log).column, cell)],
                         old(log).column + 1)
      ensures |log.lines| == |old(log).lines| && ShowsTail(memory, rows, lineCount, log.lines)
    {
      hide Overwrite, Shown;
      ghost var before, m := rows, memory;
      assert Shown(m, rows[cursorRow]) == Current(log);
      ColumnInShown(m, rows[cursorRow], cursorColumn);
      var row := rows[cursorRow];
      var address := row.data.value;
      memory := memory[address := memory[address][cursorColumn := cell]];
      if row.lastDirty < cursorColumn {
        rows := rows[cursorRow := Row(row.data, cursorColumn)];
      }
      OverwriteShown(m, row, cursorColumn, cell, memory, rows[cursorRow]);
      ghost var line := Overwrite(Current(log), log.column, cell);
      cursorColumn := cursorColumn + 1;
      log := Log(log.lines[|log.lines| - 1 := line], log.column + 1);
      forall i | 0 <= i < MAX_LINES && i != cursorRow
        ensures RowOk(memory, rows[i]) && Shown(memory, rows[i]) == Shown(m, before[i])
      {
        assert rows[i] == before[i] && RowOk(m, before[i]);
        ShownElsewhere(m, before[i], address, memory[address]);
      }
    }

    /** terminal_put_char */
    method PutChar(c: byte)
      requires Valid() && (c == NEWLINE || SPACE <= c < 128)
      modifies this
      ensures Valid() && log == LogByte(old(log), c, fg, bg)
      ensures old(Following()) ==> Following()
      ensures !old(Following()) && !old(OneBehind()) ==> startLine == old(startLine) && !Following() && !OneBehind()
      ensures old(OneBehind()) && c == NEWLINE ==> startLine == old(startLine) + 1 && Following()
    {
      EnsureBuffer();
      if c == NEWLINE {
        HandleNewLine();
        return;
      }
      hide RowsOk, ShowsTail, Overwrite;
      WriteCell(Cell(c, fg, bg));
      if cursorColumn == WIDTH {
        HandleNewLine();
      }
    }

    /** A byte that leaves the plain-text state, or a backspace that takes the cursor up to the
        row above. */
    predicate Departs(c: byte)
      reads this
    {
      c == ESCAPE || (c == BACKSPACE && cursorColumn == 0 && cursorRow != startLine)
    }

    /** terminal_parse_data in the plain-text state, up to the first byte that departs from it. */
    method ParseData(data: seq<byte>) returns (n: nat)
      requires Valid()
      modifies this
      ensures Valid() && n <= |data| && log == LogBytes(old(log), data, n, fg, bg)
      ensures n < |data| ==> Departs(data[n])
      ensures old(Following()) ==> Following()
      ensures !old(Following()) && !old(OneBehind()) ==> startLine == old(startLine) && !Following() && !OneBehind()
    {
      hide RowsOk, ShowsTail, LogPut;
      n := 0;
      while n < |data|
        invariant Valid() && n <= |data| && log == LogBytes(old(log), data, n, fg, bg)
        invariant old(Following()) ==> Following()
        invariant !old(Following()) && !old(OneBehind()) ==>
          startLine == old(startLine) && !Following() && !OneBehind()
      {
        var c := data[n];
        if Departs(c) {
          return;
        }
        if c == RETURN {
          // terminal_move_cursor_to( terminal, 0, cursor_row - start_line )
          cursorColumn := 0;
          log := log.(column := 0);
        } else if c == BACKSPACE {
          if cursorColumn > 0 {
            cursorColumn := cursorColumn - 1;
            log := log.(column := log.column - 1);
          }
        } else if SPACE <= c < 128 || c == NEWLINE {
          PutChar(c);
        }
        n := n + 1;
      }
    }

    /** terminal_scroll: the user looks elsewhere, and nothing is lost. */
    method Scroll(offset: int)
      requires Valid()
      modifies this`startLine
      ensures Valid()
      ensures var bottom := if lineCount > HEIGHT then lineCount - HEIGHT else 0;
              startLine == if old(startLine) + offset < 0 then 0
                           else if old(startLine) + offset > bottom then bottom
                           else old(startLine) + offset
    {
      var newStartLine := startLine + offset;
      if newStartLine < 0 {
        newStartLine := 0;
      }
      var bottom := if lineCount - HEIGHT > 0 then lineCount - HEIGHT else 0;
      if newStartLine > bottom {
        newStartLine := bottom;
      }
      startLine := newStartLine;
    }
  }

  /** A whole session, up to the first byte that departs from plain text. However output and
      scrolling mix, the rows show the end of the log of all output, the cursor is on the last
      row and the window is within bounds. */
  method Session(events: seq<Event>) returns (terminal: Terminal, k: nat, n: nat)
    ensures terminal.Valid() && k <= |events|
    ensures k == |events| ==>
              n == 0 && terminal.log == LogEvents(Log([[]], 0), events, k, terminal.fg, terminal.bg)
    ensures k < |events| ==>
              && events[k].Text? && n < |events[k].data| && terminal.Departs(events[k].data[n])
              && terminal.log == LogBytes(LogEvents(Log([[]], 0), events, k, terminal.fg, terminal.bg),
                                          events[k].data, n, terminal.fg, terminal.bg)
  {
    hide Terminal.RowsOk, ShowsTail, LogBytes;
    terminal := new Terminal();
    k, n := 0, 0;
    while k < |events|
      invariant terminal.Valid() && fresh(terminal) && k <= |events| && n == 0
      invariant terminal.log == LogEvents(Log([[]], 0), events, k, terminal.fg, terminal.bg)
    {
      match events[k] {
        case Text(data) =>
          n := terminal.ParseData(data);
          if n < |data| {
            return;
          }
          n := 0;
        case Wheel(offset) => terminal.Scroll(offset);
      }
      k := k + 1;
    }
  }

  lemma ColumnInShown(m: Memory, row: Row, column: nat)
    requires RowOk(m, row) && column <= |Shown(m, row)|
    ensures column <= row.lastDirty + 1
  {
  }

  lemma ShownElsewhere(m: Memory, row: Row, address: nat, cells: seq<Cell>)
    requires RowOk(m, row) && row.data != Some(address)
    ensures RowOk(m[address := cells], row) && Shown(m[address := cells], row) == Shown(m, row)
  {
  }

  /** Storing a cell in a row's buffer overwrites or extends what the row shows; cells beyond
      the last written column never show, whatever an earlier line left there. */
  lemma OverwriteShown(m: Memory, row: Row, column: nat, cell: Cell, m': Memory, row': Row)
    requires RowOk(m, row) && row.data.Some? && column < WIDTH && column <= row.lastDirty + 1
    requires m' == m[row.data.value := m[row.data.value][column := cell]]
    requires row' == if row.lastDirty < column then Row(row.data, column) else row
    ensures RowOk(m', row') && column <= |Shown(m, row)|
    ensures Shown(m', row') == Overwrite(Shown(m, row), column, cell)
  {
  }

  // ---------------------------------------------------------------------------------------
  // What the log is

  /** All the cells of the first i lines. */
  ghost function Joined(lines: seq<seq<Cell>>, i: nat): seq<Cell>
    requires i <= |lines|
  {
    if i == 0 then [] else Joined(lines, i - 1) + lines[i - 1]
  }

  ghost function Cells(data: seq<byte>, fg: int, bg: int): seq<Cell> {
    seq(|data|, i requires 0 <= i < |data| => Cell(data[i], fg, bg))
  }

  ghost predicate Printable(data: seq<byte>) {
    forall i :: 0 <= i < |data| ==> SPACE <= data[i] < 128
  }

  /** Every line but the last is as wide as the screen. */
  ghost predicate Full(lines: seq<seq<Cell>>) {
    forall i :: 0 <= i < |lines| - 1 ==> |lines[i]| == WIDTH
  }

  lemma {:induction false} JoinedPrefix(lines: seq<seq<Cell>>, more: seq<seq<Cell>>, i: nat)
    requires i <= |lines| && i <= |more| && lines[..i] == more[..i]
    ensures Joined(lines, i) == Joined(more, i)
    decreases i
  {
    if i > 0 {
      assert lines[..i - 1] == lines[..i][..i - 1] && more[..i - 1] == more[..i][..i - 1];
      assert lines[i - 1] == lines[..i][i - 1] && more[i - 1] == more[..i][i - 1];
      JoinedPrefix(lines, more, i - 1);
    }
  }

  /** Printable text, written from an empty line on, fills lines of the screen's width one after the
      other: put together they are the text, cell by cell. */
  lemma {:induction false} TextFillsLines(data: seq<byte>, i: nat, fg: int, bg: int)
    requires i <= |data| && Printable(data)
    ensures var log := LogBytes(Log([[]], 0), data, i, fg, bg);
            && Full(log.lines) && log.column == |Current(log)|
            && Joined(log.lines, |log.lines|) == Cells(data, fg, bg)[..i]
    decreases i
  {
    if i == 0 {
      var start: seq<seq<Cell>> := [[]];
      assert Joined(start, 0) == [] && Joined(start, 1) == [];
    } else {
      TextFillsLines(data, i - 1, fg, bg);
      hide LogPut, Joined, Full;
      var log := LogBytes(Log([[]], 0), data, i - 1, fg, bg);
      PutFills(log, Cell(data[i - 1], fg, bg), Cells(data, fg, bg)[..i - 1]);
      assert Cells(data, fg, bg)[..i] == Cells(data, fg, bg)[..i - 1] + [Cell(data[i - 1], fg, bg)];
    }
  }

  lemma PutFills(log: Log, cell: Cell, cells: seq<Cell>)
    requires LogOk(log) && Full(log.lines) && log.column == |Current(log)|
    requires Joined(log.lines, |log.lines|) == cells
    ensures var r := LogPut(log, cell);
            && Full(r.lines) && r.column == |Current(r)|
            && Joined(r.lines, |r.lines|) == cells + [cell]
  {
    hide Joined, Full;
    var n := |log.lines|;
    var lines := log.lines[n - 1 := Current(log) + [cell]];
    LastLonger(log.lines, cell);
    StillFull(log.lines, lines);
    if log.column + 1 == WIDTH {
      EmptyLineAdded(lines);
    }
  }

  lemma LastLonger(lines: seq<seq<Cell>>, cell: Cell)
    requires lines != []
    ensures var n := |lines|;
            Joined(lines[n - 1 := lines[n - 1] + [cell]], n) == Joined(lines, n) + [cell]
  {
    hide Joined;
    var n, last := |lines|, lines[|lines| - 1];
    var longer := lines[n - 1 := last + [cell]];
    JoinedPrefix(lines, longer, n - 1);
    JoinedStep(lines, n);
    JoinedStep(longer, n);
    assert Joined(lines, n - 1) + (last + [cell]) == (Joined(lines, n - 1) + last) + [cell];
  }

  lemma JoinedStep(lines: seq<seq<Cell>>, n: nat)
    requires 0 < n <= |lines|
    ensures Joined(lines, n) == Joined(lines, n - 1) + lines[n - 1]
  {
  }

  lemma StillFull(lines: seq<seq<Cell>>, lines': seq<seq<Cell>>)
    requires Full(lines) && lines != [] && |lines'| == |lines| && lines'[..|lines| - 1] == lines[..|lines| - 1]
    ensures Full(lines')
  {
    forall i | 0 <= i < |lines'| - 1 ensures |lines'[i]| == WIDTH {
      assert lines'[i] == lines'[..|lines| - 1][i] == lines[..|lines| - 1][i];
    }
  }

  lemma EmptyLineAdded(lines: seq<seq<Cell>>)
    requires Full(lines) && lines != [] && |lines[|lines| - 1]| == WIDTH
    ensures Full(lines + [[]]) && Joined(lines + [[]], |lines| + 1) == Joined(lines, |lines|)
  {
    hide Joined;
    JoinedPrefix(lines, lines + [[]], |lines|);
    JoinedStep(lines + [[]], |lines| + 1);
  }

  /** A newline ends the line wherever it stands and keeps the others; a return goes back to its start
      and keeps all cells. */
  lemma NewlineAndReturn(log: Log, fg: int, bg: int)
    requires LogOk(log)
    ensures LogByte(log, NEWLINE, fg, bg) == Log(log.lines + [[]], 0)
    ensures LogByte(log, RETURN, fg, bg) == Log(log.lines, 0)
    ensures LogByte(LogByte(log, RETURN, fg, bg), BACKSPACE, fg, bg) == LogByte(log, RETURN, fg, bg)
  {
  }

  lemma {:induction false} NewlinesCount(log: Log, data: seq<byte>, i: nat, fg: int, bg: int)
    requires LogOk(log) && i <= |data| && forall k :: 0 <= k < |data| ==> data[k] == NEWLINE
    ensures |LogBytes(log, data, i, fg, bg).lines| == |log.lines| + i
    decreases i
  {
    if i > 0 {
      NewlinesCount(log, data, i - 1, fg, bg);
    }
  }

  /** 300 lines are there, the user scrolls back by one, and the next newline takes the window back
      to the end. */
  method WindowJumps() returns (scrolled: nat, after: nat)
    ensures scrolled == MAX_LINES - HEIGHT - 1 && after == scrolled + 1
  {
    hide Terminal.RowsOk, ShowsTail, LogBytes;
    var terminal := new Terminal();
    var newlines: seq<byte> := seq(MAX_LINES - 1, _ => NEWLINE);
    NewlinesCount(terminal.log, newlines, |newlines|, terminal.fg, terminal.bg);
    var n := terminal.ParseData(newlines);
    assert newlines[..n] == newlines;
    terminal.Scroll(-1);
    scrolled := terminal.startLine;
    terminal.PutChar(NEWLINE);
    after := terminal.startLine;
  }
}
