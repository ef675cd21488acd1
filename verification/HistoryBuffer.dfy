/** The screen and history of the graphical terminal in memory: TerminalLine and
    TerminalBuffer in source/applications/gui/terminal/terminalbuffer.cpp.

    The screen is an array of pointers to rows; scrolling copies the leading rows into the
    history, moves the pointers and clears the rows that come round. Each call is proved to do
    to the rows in memory what ScreenSpec says. */
module HistoryBuffer {
  import opened Options
  import opened Bytes
  import opened ScreenSpec

  // ---------------------------------------------------------------------------------------
  // Rows

  class TerminalLine {
    var text: seq<byte>
    var attr: seq<Attribute>
    var dirtyWidth: nat

    ghost function Value(): Row
      reads this
    {
      Row(text, attr, dirtyWidth)
    }

    /** A new row of a given width, as setSize makes it. */
    constructor (width: nat)
      ensures Value() == Blank(width)
    {
      text, attr, dirtyWidth := seq(width, _ => SPACE), seq(width, _ => PLAIN), 0;
    }

    constructor Copy(line: TerminalLine)
      ensures Value() == line.Value()
    {
      text, attr, dirtyWidth := line.text, line.attr, line.dirtyWidth;
    }

    method Clear(a: Attribute, start: nat, end: int)
      requires |text| == |attr| && -1 <= end < |text|
      modifies this`text, this`attr
      ensures Value() == Erased(old(Value()), a, start, if end == -1 then |old(text)| - 1 else end)
    {
      var last := if end == -1 then |text| - 1 else end;
      var i: int := start;
      while i <= last
        invariant |text| == |attr| == |old(text)| && start <= i
        invariant forall k :: 0 <= k < |text| ==>
          (text[k], attr[k]) == if start <= k < i && k <= last then (SPACE, a) else (old(text)[k], old(attr)[k])
        decreases last - i
      {
        text, attr := text[i := SPACE], attr[i := a];
        i := i + 1;
      }
      ghost var r := Erased(old(Value()), a, start, last);
      assert text == r.text && attr == r.attr;
    }

    /** The two lines of scrollBy that make a row blank. */
    method Wipe()
      requires |text| == |attr|
      modifies this
      ensures Value() == Blank(|old(text)|)
    {
      Clear(PLAIN, 0, -1);
      dirtyWidth := 0;
      assert text == Blank(|old(text)|).text && attr == Blank(|old(text)|).attr;
    }
  }

  // ---------------------------------------------------------------------------------------
  // The buffer

  ghost predicate Distinct(rows: seq<TerminalLine>) {
    forall i, j :: 0 <= i < j < |rows| ==> rows[i] != rows[j]
  }

  ghost predicate Shows(rows: seq<TerminalLine>, values: seq<Row>)
    reads rows
  {
    |rows| == |values| && forall i :: 0 <= i < |rows| ==> rows[i].Value() == values[i]
  }

  /** The rows of a region moved up by count, the first of them coming in at its end. */
  ghost function Rotated<T>(rows: seq<T>, top: nat, bottom: nat, count: nat): (r: seq<T>)
    requires top + count <= bottom < |rows|
    ensures |r| == |rows|
  {
    rows[..top] + rows[top + count..bottom + 1] + rows[top..top + count] + rows[bottom + 1..]
  }

  lemma RotatedPermutes<T>(rows: seq<T>, top: nat, bottom: nat, count: nat)
    requires top + count <= bottom < |rows|
    ensures multiset(Rotated(rows, top, bottom, count)) == multiset(rows)
  {
    var a, b, c, d := rows[..top], rows[top..top + count], rows[top + count..bottom + 1], rows[bottom + 1..];
    assert rows == a + b + c + d;
  }

  /** The place a rotated row came from. */
  ghost function Origin(i: nat, top: nat, bottom: nat, count: nat): (k: nat)
    requires top + count <= bottom
  {
    if i < top || bottom < i then i
    else if i + count <= bottom then i + count
    else i + count - (bottom - top + 1)
  }

  lemma RotatedAt<T>(rows: seq<T>, top: nat, bottom: nat, count: nat, i: nat)
    requires top + count <= bottom < |rows| && i < |rows|
    ensures Origin(i, top, bottom, count) < |rows|
    ensures Rotated(rows, top, bottom, count)[i] == rows[Origin(i, top, bottom, count)]
  {
  }

  lemma RotatedDistinct(rows: seq<TerminalLine>, top: nat, bottom: nat, count: nat)
    requires top + count <= bottom < |rows| && Distinct(rows)
    ensures Distinct(Rotated(rows, top, bottom, count))
  {
    hide Rotated;
    forall i, j | 0 <= i < j < |rows|
      ensures Rotated(rows, top, bottom, count)[i] != Rotated(rows, top, bottom, count)[j]
    {
      RotatedAt(rows, top, bottom, count, i);
      RotatedAt(rows, top, bottom, count, j);
    }
  }

  /** Between the second loop of scrollBy and the end of its third, after i rounds. */
  ghost predicate Shifted(was: seq<TerminalLine>, top: nat, bottom: nat, count: nat, i: nat, now: seq<TerminalLine>)
  {
    && top + count <= bottom < |was| == |now| && i <= count
    && forall k :: 0 <= k < |was| ==>
         now[k] == was[if bottom - count + i < k then k else Origin(k, top, bottom, count)]
  }

  lemma ShiftedStep(was: seq<TerminalLine>, top: nat, bottom: nat, count: nat, i: nat,
                    now: seq<TerminalLine>, next: seq<TerminalLine>)
    requires Shifted(was, top, bottom, count, i, now) && i < count
    requires next == now[bottom + 1 - count + i := was[top + i]]
    ensures Shifted(was, top, bottom, count, i + 1, next)
  {
  }

  lemma ClearedNothing(rows: seq<Row>, top: nat, width: nat)
    requires top <= |rows|
    ensures Cleared(rows, top, 0, width) == rows
  {
  }

  lemma ClearedStep(rows: seq<Row>, top: nat, n: nat, width: nat)
    requires top + n < |rows|
    ensures Cleared(rows, top, n, width)[top + n] == rows[top + n]
    ensures Cleared(rows, top, n + 1, width) == Cleared(rows, top, n, width)[top + n := Blank(width)]
  {
  }

  lemma ClearedOk(rows: seq<Row>, top: nat, n: nat, width: nat)
    requires top + n <= |rows| && forall i :: 0 <= i < |rows| ==> RowOk(rows[i], width)
    ensures forall i :: 0 <= i < |rows| ==> RowOk(Cleared(rows, top, n, width)[i], width)
  {
  }

  /** One row is cleared; no other row of the screen and no row of the history changes. */
  method WipeRow(line: TerminalLine, ghost rows: seq<TerminalLine>, ghost k: nat, ghost values: seq<Row>,
                 ghost kept: seq<TerminalLine>, ghost keptValues: seq<Row>, ghost width: nat)
    requires k < |rows| == |values| && rows[k] == line && Distinct(rows) && line !in kept
    requires RowOk(values[k], width) && Shows(rows, values) && Shows(kept, keptValues)
    modifies line
    ensures Shows(rows, values[k := Blank(width)]) && Shows(kept, keptValues)
  {
    line.Wipe();
  }

  /** One cell is written, with the same care. */
  method WriteRow(line: TerminalLine, x: nat, c: byte, a: Attribute, ghost rows: seq<TerminalLine>, ghost k: nat,
                  ghost values: seq<Row>, ghost kept: seq<TerminalLine>, ghost keptValues: seq<Row>)
    requires k < |rows| == |values| && rows[k] == line && Distinct(rows) && line !in kept
    requires x < |values[k].text| == |values[k].attr| && Shows(rows, values) && Shows(kept, keptValues)
    modifies line
    ensures Shows(rows, values[k := Written(values[k], x, c, a)]) && Shows(kept, keptValues)
  {
    line.text := line.text[x := c];
    line.attr := line.attr[x := a];
    line.dirtyWidth := if line.dirtyWidth < x + 1 then x + 1 else line.dirtyWidth;
  }

  /** The cells from start to end are cleared, with the same care. */
  method ClearRow(line: TerminalLine, a: Attribute, start: nat, end: int, ghost rows: seq<TerminalLine>, ghost k: nat,
                  ghost values: seq<Row>, ghost kept: seq<TerminalLine>, ghost keptValues: seq<Row>, ghost width: nat)
    requires k < |rows| == |values| && rows[k] == line && Distinct(rows) && line !in kept
    requires RowOk(values[k], width) && -1 <= end < width && Shows(rows, values) && Shows(kept, keptValues)
    modifies line
    ensures Shows(rows, values[k := Erased(values[k], a, start, if end == -1 then width - 1 else end)])
    ensures Shows(kept, keptValues)
  {
    line.Clear(a, start, end);
  }

  lemma SettledPointers(was: seq<TerminalLine>, top: nat, bottom: nat, count: nat, now: seq<TerminalLine>)
    requires Shifted(was, top, bottom, count, count, now) && Distinct(was)
    ensures now == Rotated(was, top, bottom, count)
    ensures multiset(now) == multiset(was) && Distinct(now)
  {
    hide Rotated, Distinct;
    forall k | 0 <= k < |was| ensures now[k] == Rotated(was, top, bottom, count)[k] {
      RotatedAt(was, top, bottom, count, k);
    }
    RotatedPermutes(was, top, bottom, count);
    RotatedDistinct(was, top, bottom, count);
  }

  lemma SettledMembers(was: seq<TerminalLine>, top: nat, bottom: nat, count: nat, now: seq<TerminalLine>)
    requires Shifted(was, top, bottom, count, count, now)
    ensures forall l :: l in now ==> l in was
  {
  }

  lemma RotatedBlanks(values: seq<Row>, top: nat, bottom: nat, count: nat, width: nat)
    requires top + count <= bottom < |values| && 0 < count
    ensures Rotated(Cleared(values, top, count, width), top, bottom, count)
         == Scrolled(values, top, bottom, count, width)
  {
    var c := Cleared(values, top, count, width);
    assert c[..top] == values[..top];
    assert c[top..top + count] == Blanks(count, width);
    assert c[top + count..bottom + 1] == values[top + count..bottom + 1];
    assert c[bottom + 1..] == values[bottom + 1..];
  }

  /** The rotated pointers show the scrolled screen. */
  lemma SettledValues(was: seq<TerminalLine>, top: nat, bottom: nat, count: nat, now: seq<TerminalLine>,
                      values: seq<Row>, width: nat)
    requires Shifted(was, top, bottom, count, count, now) && 0 < count
    requires |values| == |was| && Shows(was, Cleared(values, top, count, width))
    ensures Shows(now, Scrolled(values, top, bottom, count, width))
  {
    hide Rotated, Scrolled, Cleared, Blanks;
    var cleared := Cleared(values, top, count, width);
    RotatedBlanks(values, top, bottom, count, width);
    forall k | 0 <= k < |was| ensures now[k].Value() == Rotated(cleared, top, bottom, count)[k] {
      RotatedAt(cleared, top, bottom, count, k);
    }
  }

  lemma ShowsMore(rows: seq<TerminalLine>, values: seq<Row>, line: TerminalLine)
    requires Shows(rows, values)
    ensures Shows(rows + [line], values + [line.Value()])
  {
  }

  lemma ShowsAt(rows: seq<TerminalLine>, values: seq<Row>, i: nat)
    requires Shows(rows, values) && i < |values|
    ensures i < |rows| && rows[i].Value() == values[i]
  {
  }

  lemma ScrolledCases(rows: seq<Row>, top: nat, bottom: nat, count: int, width: nat)
    requires top <= bottom < |rows|
    ensures Abs(count) > bottom - top ==>
      Scrolled(rows, top, bottom, count, width) == Cleared(rows, top, bottom - top + 1, width)
    ensures Abs(count) <= bottom - top && count <= 0 ==> Scrolled(rows, top, bottom, count, width) == rows
  {
  }

  lemma ErasedNothing(rows: seq<Row>, first: nat, a: Attribute, width: nat)
    requires AllOk(rows, width)
    ensures ErasedRows(rows, first, first, a, width) == rows
  {
  }

  lemma ErasedStep(rows: seq<Row>, first: nat, i: nat, a: Attribute, width: nat)
    requires AllOk(rows, width) && first <= i < |rows|
    ensures ErasedRows(rows, first, i, a, width)[i] == rows[i]
    ensures ErasedRows(rows, first, i + 1, a, width)
         == ErasedRows(rows, first, i, a, width)[i := Erased(rows[i], a, 0, width - 1)]
  {
  }

  class TerminalBuffer {
    const width: nat
    const height: nat
    const lines: array<TerminalLine>
    var history: seq<TerminalLine>
    var scrollTop: nat
    var scrollBottom: nat
    var cursorX: nat
    var cursorY: nat
    var attrib: Attribute
    /** The saved cursor and attribute, once there are any. */
    var mark: Option<Mark>
    /** What the history and the screen show. */
    ghost var saved: seq<Row>
    ghost var screen: seq<Row>

    ghost predicate Valid()
      reads this, lines, lines[..], history
    {
      && lines.Length == |screen| == height > 0 && width > 0
      && scrollTop <= scrollBottom < height && cursorX < width
      && (mark.Some? ==> mark.value.x < width)
      && Distinct(lines[..])
      && (forall h :: h in history ==> h !in lines[..])
      && Shows(history, saved) && Shows(lines[..], screen)
      && AllOk(saved, width) && AllOk(screen, width)
    }

    ghost function Now(): (s: Screen)
      reads this
    {
      Screen(saved, screen, cursorX, cursorY, scrollTop, scrollBottom, attrib, mark)
    }

    /** The first part of scrollBy. */
    method SaveRows(n: nat)
      requires Valid() && n <= height
      modifies this`history, this`saved
      ensures Valid() && saved == old(saved) + screen[..n]
      ensures old(history) <= history && fresh(history[|old(history)|..])
    {
      hide Shows, Distinct, RowOk;
      ghost var added: seq<TerminalLine> := [];
      for i := 0 to n
        invariant |added| == i && fresh(added) && history == old(history) + added
        invariant Shows(lines[..], screen) && Shows(history, saved) && saved == old(saved) + screen[..i]
      {
        var copy := new TerminalLine.Copy(lines[i]);
        ShowsAt(lines[..], screen, i);
        ShowsMore(history, saved, copy);
        history := history + [copy];
        saved := saved + [screen[i]];
        added := added + [copy];
      }
      assert history[|old(history)|..] == added;
    }

    method ClearRegion()
      requires Valid()
      modifies this`screen, lines[..]
      ensures Valid()
      ensures screen == Cleared(old(screen), scrollTop, scrollBottom - scrollTop + 1, width)
    {
      hide Shows, Cleared, Distinct;
      ClearedNothing(screen, scrollTop, width);
      for i := scrollTop to scrollBottom + 1
        invariant Shows(lines[..], screen) && Shows(history, saved)
        invariant screen == Cleared(old(screen), scrollTop, i - scrollTop, width)
      {
        ClearedStep(old(screen), scrollTop, i - scrollTop, width);
        WipeRow(lines[i], lines[..], i, screen, history, saved, width);
        screen := screen[i := Blank(width)];
      }
      ClearedOk(old(screen), scrollTop, scrollBottom - scrollTop + 1, width);
    }

    /** The pointers of the region move up; the first count of them are handed out. */
    method ShiftRegion(count: nat) returns (tmp: seq<TerminalLine>)
      requires Valid() && 0 < count <= scrollBottom - scrollTop
      modifies lines
      ensures tmp == old(lines[..])[scrollTop..scrollTop + count]
      ensures Shifted(old(lines[..]), scrollTop, scrollBottom, count, 0, lines[..])
    {
      hide Shows, Distinct;
      var scrollHeight := scrollBottom - scrollTop + 1;
      tmp := [];
      for i := 0 to count
        invariant lines[..] == old(lines[..]) && tmp == old(lines[..])[scrollTop..scrollTop + i]
      {
        tmp := tmp + [lines[scrollTop + i]];
      }
      for i := 0 to scrollHeight - count
        invariant forall k :: 0 <= k < height ==>
          lines[k] == old(lines[..])[if scrollTop <= k < scrollTop + i then k + count else k]
      {
        lines[scrollTop + i] := lines[scrollTop + i + count];
      }
    }

    method RotateRegion(count: nat)
      requires Valid() && 0 < count <= scrollBottom - scrollTop
      modifies this`screen, lines, lines[..]
      ensures Valid() && multiset(lines[..]) == multiset(old(lines[..]))
      ensures forall l :: l in lines[..] ==> l in old(lines[..])
      ensures screen == Scrolled(old(screen), scrollTop, scrollBottom, count, width)
    {
      hide Shows, Cleared, Distinct, Shifted, Scrolled, RowOk, Rotated, Blank;
      var scrollHeight := scrollBottom - scrollTop + 1;
      ghost var was, values := lines[..], screen;
      ClearedNothing(values, scrollTop, width);
      var tmp := ShiftRegion(count);
      assert Shows(was, values) && Shows(history, saved);
      for i := 0 to count
        invariant Shifted(was, scrollTop, scrollBottom, count, i, lines[..])
        invariant Shows(history, saved) && Shows(was, Cleared(values, scrollTop, i, width))
      {
        ClearedStep(values, scrollTop, i, width);
        var line := tmp[i];
        ghost var before := lines[..];
        lines[scrollTop + scrollHeight - count + i] := line;
        ShiftedStep(was, scrollTop, scrollBottom, count, i, before, lines[..]);
        WipeRow(line, was, scrollTop + i, Cleared(values, scrollTop, i, width), history, saved, width);
      }
      screen := Scrolled(values, scrollTop, scrollBottom, count, width);
      SettledPointers(was, scrollTop, scrollBottom, count, lines[..]);
      SettledMembers(was, scrollTop, scrollBottom, count, lines[..]);
      SettledValues(was, scrollTop, scrollBottom, count, lines[..], values, width);
      ScrolledOk(values, scrollTop, scrollBottom, count, width);
    }

    constructor (width: nat, height: nat)
      requires 0 < width && 0 < height
      ensures Valid() && this.width == width && this.height == height
      ensures Now() == Initial(width, height) && history == []
      ensures fresh(lines) && fresh(lines[..])
    {
      var row := new TerminalLine(width);
      var rows := new TerminalLine[height](_ => row);
      for i := 1 to height
        invariant fresh(rows) && fresh(rows[..])
        invariant forall k :: 0 <= k < i ==> rows[k].Value() == Blank(width)
        invariant Distinct(rows[..i])
      {
        var more := new TerminalLine(width);
        assert more !in rows[..];
        rows[i] := more;
        assert rows[..i + 1] == rows[..i] + [more];
      }
      assert rows[..height] == rows[..];
      this.width, this.height, lines := width, height, rows;
      history, saved, screen := [], [], Blanks(height, width);
      scrollTop, scrollBottom, cursorX, cursorY := 0, height - 1, 0, 0;
      attrib, mark := PLAIN, None;
    }

    method LineAt(index: nat) returns (line: TerminalLine)
      requires Valid() && index < |history| + height
      ensures line.Value() == PageOf(Now()).rows[index]
    {
      if index < |history| {
        line := history[index];
      } else {
        line := lines[index - |history|];
      }
    }

    /** Rows are only permuted, and the history only grows. */
    twostate predicate Kept(rows: seq<TerminalLine>, past: seq<TerminalLine>)
      reads this`history, lines
    {
      && multiset(lines[..]) == multiset(rows) && (forall l :: l in lines[..] ==> l in rows)
      && past <= history && fresh(history[|past|..])
    }

    method ScrollBy(count: int)
      requires Valid() && count != 0
      modifies this`history, this`saved, this`screen, lines, lines[..]
      ensures Valid() && Kept(old(lines[..]), old(history))
      ensures Now() == AfterScroll(old(Now()), count, width)
    {
      hide Shows, Distinct, AllOk, Cleared, Scrolled;
      ScrolledCases(screen, scrollTop, scrollBottom, count, width);
      if scrollTop == 0 && count > 0 {
        SaveRows(Min(count, height));
      }
      var scrollHeight := scrollBottom - scrollTop + 1;
      if Abs(count) >= scrollHeight {
        ClearRegion();
      } else if count > 0 {
        RotateRegion(count);
      }
    }

    method InsertCr()
      requires Valid()
      modifies this`cursorX
      ensures Valid() && Now() == old(Now()).(x := 0)
    {
      cursorX := 0;
    }

    method InsertLf()
      requires Valid()
      modifies this`history, this`saved, this`screen, this`cursorY, lines, lines[..]
      ensures Valid() && Kept(old(lines[..]), old(history))
      ensures Now() == AfterLineFeed(old(Now()), width)
    {
      hide Shows, Distinct, AllOk, AfterScroll;
      if cursorY == scrollBottom {
        ScrollBy(1);
      } else {
        cursorY := cursorY + 1;
      }
    }

    method InsertBackSpace()
      requires Valid()
      modifies this`cursorX, this`cursorY
      ensures Valid() && Now() == AfterBackSpace(old(Now()), width)
    {
      hide Shows, Distinct;
      if cursorX == 0 {
        if cursorY > 0 {
          cursorY := cursorY - 1;
          cursorX := width - 1;
        }
      } else {
        cursorX := cursorX - 1;
      }
    }

    /** The cell under the cursor is written; no other row changes. */
    method WriteCell(c: byte)
      requires Valid() && cursorY < height
      modifies this`screen, lines[..]
      ensures Valid()
      ensures screen == old(screen)[cursorY := Written(old(screen)[cursorY], cursorX, c, attrib)]
    {
      hide Shows, Distinct;
      var line := lines[cursorY];
      WriteRow(line, cursorX, c, attrib, lines[..], cursorY, screen, history, saved);
      screen := screen[cursorY := Written(screen[cursorY], cursorX, c, attrib)];
    }

    method InsertCharacter(c: byte)
      requires Valid() && cursorY < height
      modifies this`history, this`saved, this`screen, this`cursorX, this`cursorY, lines, lines[..]
      ensures Valid() && Kept(old(lines[..]), old(history))
      ensures Now() == AfterCharacter(old(Now()), c, width)
    {
      hide Shows, Distinct, AfterLineFeed;
      WriteCell(c);
      if cursorX + 1 == width {
        InsertLf();
        cursorX := 0;
      } else {
        cursorX := cursorX + 1;
      }
    }

    /** handleNone, outside control sequences; an assertion that fails ends the program. */
    method InsertText(c: byte) returns (ok: bool)
      requires Valid()
      modifies this`history, this`saved, this`screen, this`cursorX, this`cursorY, lines, lines[..]
      ensures Valid() && Kept(old(lines[..]), old(history))
      ensures ok <==> AfterText(old(Now()), c, width).Some?
      ensures ok ==> Now() == AfterText(old(Now()), c, width).value
    {
      hide Shows, Distinct, AfterLineFeed, AfterCharacter, AllOk;
      ok := true;
      if c == RETURN {
        InsertCr();
      } else if c == NEWLINE {
        InsertLf();
      } else if c == BACKSPACE {
        InsertBackSpace();
      } else if c >= SPACE {
        if cursorY < height {
          InsertCharacter(c);
        } else {
          ok := false;
        }
      }
    }

    method MoveCursorBy(dx: int, dy: int) returns (ok: bool)
      requires Valid()
      modifies this`cursorX, this`cursorY
      ensures Valid() && (ok <==> AfterMoveBy(old(Now()), dx, dy, width).Some?)
      ensures ok ==> Now() == AfterMoveBy(old(Now()), dx, dy, width).value
    {
      ok := 0 <= cursorX + dx < width && 0 <= cursorY + dy < height;
      if ok {
        cursorX, cursorY := cursorX + dx, cursorY + dy;
      }
    }

    method MoveCursorTo(x: int, y: int) returns (ok: bool)
      requires Valid()
      modifies this`cursorX, this`cursorY
      ensures Valid() && (ok <==> AfterMoveTo(old(Now()), x, y, width).Some?)
      ensures ok ==> Now() == AfterMoveTo(old(Now()), x, y, width).value
    {
      if x != -1 {
        if !(0 <= x < width) { return false; }
        cursorX := x;
      }
      if y != -1 {
        if !(0 <= y < height) { return false; }
        cursorY := y;
      }
      ok := true;
    }

    method SetScrollRegion(top: int, bottom: int) returns (ok: bool)
      requires Valid()
      modifies this`scrollTop, this`scrollBottom
      ensures Valid() && (ok <==> 0 <= top <= bottom < height)
      ensures ok ==> Now() == old(Now()).(top := top, bottom := bottom)
    {
      ok := 0 <= top <= bottom < height;
      if ok {
        scrollTop, scrollBottom := top, bottom;
      }
    }

    /** saveCursor and saveAttribute. */
    method SaveMark()
      requires Valid()
      modifies this`mark
      ensures Valid() && Now() == old(Now()).(mark := Some(Mark(cursorX, cursorY, attrib)))
    {
      mark := Some(Mark(cursorX, cursorY, attrib));
    }

    /** restoreCursor and restoreAttribute; the fields are not initialised before a save. */
    method RestoreMark() returns (ok: bool)
      requires Valid()
      modifies this`cursorX, this`cursorY, this`attrib
      ensures Valid() && (ok <==> mark.Some?)
      ensures ok ==> Now() == old(Now()).(x := mark.value.x, y := mark.value.y, attr := mark.value.attr)
    {
      ok := mark.Some?;
      if ok {
        cursorX, cursorY, attrib := mark.value.x, mark.value.y, mark.value.attr;
      }
    }

    /** The loops of erase, eraseAbove and eraseBelow, and eraseLine: whole rows. */
    method EraseRows(first: nat, last: nat)
      requires Valid() && first <= last <= height
      modifies this`screen, lines[..]
      ensures Valid()
      ensures Now() == old(Now()).(rows := ErasedRows(old(screen), first, last, attrib, width))
    {
      hide Shows, Distinct, ErasedRows, Erased;
      ErasedNothing(screen, first, attrib, width);
      for i := first to last
        invariant Shows(lines[..], screen) && Shows(history, saved)
        invariant screen == ErasedRows(old(screen), first, i, attrib, width)
      {
        ErasedStep(old(screen), first, i, attrib, width);
        ClearRow(lines[i], attrib, 0, -1, lines[..], i, screen, history, saved, width);
        screen := screen[i := Erased(screen[i], attrib, 0, width - 1)];
      }
    }

    /** eraseBefore and eraseAfter: part of the cursor's row. */
    method EraseCells(start: nat, end: int)
      requires Valid() && cursorY < height && start < width && -1 <= end < width
      modifies this`screen, lines[..]
      ensures Valid()
      ensures var last := if end == -1 then width - 1 else end;
              Now() == old(Now()).(rows := old(screen)[cursorY := Erased(old(screen)[cursorY], attrib, start, last)])
    {
      hide Shows, Distinct, Erased;
      ClearRow(lines[cursorY], attrib, start, end, lines[..], cursorY, screen, history, saved, width);
      screen := screen[cursorY := Erased(screen[cursorY], attrib, start, if end == -1 then width - 1 else end)];
    }
  }
}
