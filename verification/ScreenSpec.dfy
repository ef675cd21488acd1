/** The screen of the graphical terminal as a value: what each call of TerminalBuffer in
    source/applications/gui/terminal/terminalbuffer.cpp does to the history, the rows, the
    cursor and the scroll region; and, as a reference for plain text, one page that only grows
    at its end. */
module ScreenSpec {
  import opened Options
  import opened Bytes

  const SPACE: byte := 32
  const BACKSPACE: byte := 8
  const NEWLINE: byte := 10
  const RETURN: byte := 13

  datatype Color = Black | Red | Green | Yellow | Blue | Magenta | Cyan | White

  datatype Attribute = Attribute(bg: Color, fg: Color, bold: bool)

  const PLAIN := Attribute(Black, White, false)

  /** What a row shows. */
  datatype Row = Row(text: seq<byte>, attr: seq<Attribute>, dirtyWidth: nat)

  ghost predicate RowOk(row: Row, width: nat) {
    |row.text| == |row.attr| == width
  }

  ghost function Blank(width: nat): Row {
    Row(seq(width, _ => SPACE), seq(width, _ => PLAIN), 0)
  }

  ghost function Blanks(n: nat, width: nat): (rows: seq<Row>)
    ensures |rows| == n && forall i :: 0 <= i < n ==> rows[i] == Blank(width)
  {
    seq(n, _ => Blank(width))
  }

  // ---------------------------------------------------------------------------------------
  // Rows of the screen

  /** n rows from top on made blank. */
  ghost function Cleared(rows: seq<Row>, top: nat, n: nat, width: nat): (r: seq<Row>)
    requires top + n <= |rows|
    ensures |r| == |rows|
  {
    rows[..top] + Blanks(n, width) + rows[top + n..]
  }

  /** The screen after scrolling the region by count; a small negative count does nothing. */
  ghost function Scrolled(rows: seq<Row>, top: nat, bottom: nat, count: int, width: nat): (r: seq<Row>)
    requires top <= bottom < |rows|
    ensures |r| == |rows|
  {
    if Abs(count) > bottom - top then Cleared(rows, top, bottom - top + 1, width)
    else if count > 0 then
      rows[..top] + rows[top + count..bottom + 1] + Blanks(count, width) + rows[bottom + 1..]
    else rows
  }

  function Min(a: int, b: int): int {
    if a < b then a else b
  }

  function Abs(n: int): nat {
    if n < 0 then -n else n
  }

  ghost function Written(row: Row, x: nat, c: byte, a: Attribute): Row
    requires x < |row.text| == |row.attr|
  {
    Row(row.text[x := c], row.attr[x := a], if row.dirtyWidth < x + 1 then x + 1 else row.dirtyWidth)
  }

  /** TerminalLine::clear, for the cells from start to last. */
  ghost function Erased(row: Row, a: Attribute, start: nat, last: int): (r: Row)
    requires |row.text| == |row.attr|
    ensures |r.text| == |r.attr| == |row.text|
  {
    Row(seq(|row.text|, i requires 0 <= i < |row.text| => if start <= i <= last then SPACE else row.text[i]),
        seq(|row.attr|, i requires 0 <= i < |row.attr| => if start <= i <= last then a else row.attr[i]),
        row.dirtyWidth)
  }

  ghost predicate AllOk(rows: seq<Row>, width: nat) {
    forall i :: 0 <= i < |rows| ==> RowOk(rows[i], width)
  }

  /** The rows from first to last - 1, erased. */
  ghost function ErasedRows(rows: seq<Row>, first: nat, last: nat, a: Attribute, width: nat): (r: seq<Row>)
    requires AllOk(rows, width)
    ensures |r| == |rows| && AllOk(r, width)
    ensures forall i :: 0 <= i < |rows| ==>
              r[i] == if first <= i < last then Erased(rows[i], a, 0, width - 1) else rows[i]
  {
    seq(|rows|, i requires 0 <= i < |rows| => if first <= i < last then Erased(rows[i], a, 0, width - 1) else rows[i])
  }

  // ---------------------------------------------------------------------------------------
  // The screen

  /** What saveCursor and saveAttribute keep. */
  datatype Mark = Mark(x: nat, y: nat, attr: Attribute)

  datatype Screen = Screen(
    saved: seq<Row>, rows: seq<Row>, x: nat, y: nat, top: nat, bottom: nat, attr: Attribute, mark: Option<Mark>)

  /** The cursor may be below the screen: see LineFeedLeavesScreen. */
  ghost predicate ScreenOk(s: Screen, width: nat) {
    && s.top <= s.bottom < |s.rows| && s.x < width
    && (s.mark.Some? ==> s.mark.value.x < width)
    && AllOk(s.saved, width) && AllOk(s.rows, width)
  }

  predicate OnScreen(s: Screen) {
    s.y < |s.rows|
  }

  ghost function Initial(width: nat, height: nat): (s: Screen)
    requires 0 < width && 0 < height
    ensures ScreenOk(s, width) && OnScreen(s)
  {
    Screen([], Blanks(height, width), 0, 0, 0, height - 1, PLAIN, None)
  }

  /** scrollBy */
  ghost function AfterScroll(s: Screen, count: int, width: nat): (r: Screen)
    requires ScreenOk(s, width)
    ensures ScreenOk(r, width) && |r.rows| == |s.rows| && s.saved <= r.saved
  {
    ScrolledOk(s.rows, s.top, s.bottom, count, width);
    s.(saved := s.saved + if s.top == 0 && count > 0 then s.rows[..Min(count, |s.rows|)] else [],
       rows := Scrolled(s.rows, s.top, s.bottom, count, width))
  }

  lemma ScrolledOk(rows: seq<Row>, top: nat, bottom: nat, count: int, width: nat)
    requires top <= bottom < |rows| && AllOk(rows, width)
    ensures AllOk(Scrolled(rows, top, bottom, count, width), width)
  {
  }

  /** insertLf */
  ghost function AfterLineFeed(s: Screen, width: nat): (r: Screen)
    requires ScreenOk(s, width)
    ensures ScreenOk(r, width) && |r.rows| == |s.rows| && s.saved <= r.saved
  {
    if s.y == s.bottom then AfterScroll(s, 1, width) else s.(y := s.y + 1)
  }

  /** A line feed takes the cursor off the screen if and only if it is on the last row and the
      scroll region ends above it. */
  lemma LineFeedLeavesScreen(s: Screen, width: nat)
    requires ScreenOk(s, width) && OnScreen(s)
    ensures !OnScreen(AfterLineFeed(s, width)) <==> s.bottom < s.y == |s.rows| - 1
  {
  }

  /** insertCharacter */
  ghost function AfterCharacter(s: Screen, c: byte, width: nat): (r: Screen)
    requires ScreenOk(s, width) && OnScreen(s)
    ensures ScreenOk(r, width) && |r.rows| == |s.rows| && s.saved <= r.saved
  {
    var t := s.(rows := s.rows[s.y := Written(s.rows[s.y], s.x, c, s.attr)]);
    if s.x + 1 == width then AfterLineFeed(t, width).(x := 0) else t.(x := s.x + 1)
  }

  /** insertBackSpace */
  ghost function AfterBackSpace(s: Screen, width: nat): (r: Screen)
    requires ScreenOk(s, width)
    ensures ScreenOk(r, width)
  {
    if s.x > 0 then s.(x := s.x - 1)
    else if s.y > 0 then s.(x := width - 1, y := s.y - 1)
    else s
  }

  /** handleNone, outside control sequences. The assertion of insertCharacter fails when the
      cursor is off the screen. */
  ghost function AfterText(s: Screen, c: byte, width: nat): (r: Option<Screen>)
    requires ScreenOk(s, width)
    ensures r.Some? ==> ScreenOk(r.value, width) && |r.value.rows| == |s.rows| && s.saved <= r.value.saved
  {
    if c == RETURN then Some(s.(x := 0))
    else if c == NEWLINE then Some(AfterLineFeed(s, width))
    else if c == BACKSPACE then Some(AfterBackSpace(s, width))
    else if c < SPACE then Some(s)
    else if OnScreen(s) then Some(AfterCharacter(s, c, width))
    else None
  }

  /** moveCursorBy, with its assertions. */
  ghost function AfterMoveBy(s: Screen, dx: int, dy: int, width: nat): Option<Screen> {
    if 0 <= s.x + dx < width && 0 <= s.y + dy < |s.rows| then Some(s.(x := s.x + dx, y := s.y + dy)) else None
  }

  /** moveCursorTo, with its assertions; -1 stands for the present column or row. */
  ghost function AfterMoveTo(s: Screen, x: int, y: int, width: nat): Option<Screen> {
    if (x == -1 || 0 <= x < width) && (y == -1 || 0 <= y < |s.rows|)
    then Some(s.(x := if x == -1 then s.x else x, y := if y == -1 then s.y else y))
    else None
  }

  // ---------------------------------------------------------------------------------------
  // The reference for text: a page that grows at its end

  /** The last height rows are on the screen; y counts from the top of the page. */
  datatype Page = Page(rows: seq<Row>, x: nat, y: nat)

  ghost predicate PageOk(p: Page, width: nat, height: nat) {
    && 0 < height <= |p.rows| && |p.rows| - height <= p.y < |p.rows| && p.x < width
    && forall i :: 0 <= i < |p.rows| ==> RowOk(p.rows[i], width)
  }

  ghost function NextRow(p: Page, width: nat): Page {
    Page(if p.y + 1 == |p.rows| then p.rows + [Blank(width)] else p.rows, p.x, p.y + 1)
  }

  ghost function Typed(p: Page, c: byte, a: Attribute, width: nat, height: nat): Page
    requires PageOk(p, width, height)
  {
    var q := p.(rows := p.rows[p.y := Written(p.rows[p.y], p.x, c, a)]);
    if p.x + 1 == width then NextRow(q, width).(x := 0) else q.(x := p.x + 1)
  }

  ghost function Back(p: Page, width: nat, height: nat): Page
    requires PageOk(p, width, height)
  {
    if p.x > 0 then p.(x := p.x - 1)
    else if p.y > |p.rows| - height then p.(x := width - 1, y := p.y - 1)
    else p
  }

  ghost function TextByte(p: Page, c: byte, a: Attribute, width: nat, height: nat): (q: Page)
    requires PageOk(p, width, height)
    ensures PageOk(q, width, height)
  {
    if c == RETURN then p.(x := 0)
    else if c == NEWLINE then NextRow(p, width)
    else if c == BACKSPACE then Back(p, width, height)
    else if c >= SPACE then Typed(p, c, a, width, height)
    else p
  }

  /** Scrolling up appends blank rows; the cursor keeps its place on the screen. */
  ghost function ScrolledUp(p: Page, count: nat, width: nat, height: nat): (q: Page)
    requires PageOk(p, width, height)
    ensures PageOk(q, width, height)
  {
    var n := if count < height then count else height;
    Page(p.rows + Blanks(n, width), p.x, p.y + n)
  }

  /** What can be seen of a screen, history first, and the cursor's place in it. */
  ghost function PageOf(s: Screen): Page {
    Page(s.saved + s.rows, s.x, |s.saved| + s.y)
  }

  /** The scroll region is the whole screen. */
  predicate Whole(s: Screen) {
    s.top == 0 && s.bottom == |s.rows| - 1
  }

  ghost predicate Plain(s: Screen, width: nat) {
    ScreenOk(s, width) && OnScreen(s) && Whole(s)
  }

  /** Over the whole screen, saving and scrolling append blank rows to what can be seen. */
  lemma WholeScreenScroll(saved: seq<Row>, screen: seq<Row>, count: nat, width: nat)
    requires 0 < count && 0 < |screen|
    ensures var n := Min(count, |screen|);
            saved + screen[..n] + Scrolled(screen, 0, |screen| - 1, count, width)
            == saved + screen + Blanks(n, width)
  {
    var n := Min(count, |screen|);
    assert screen == screen[..n] + screen[n..];
    assert Scrolled(screen, 0, |screen| - 1, count, width) == screen[n..] + Blanks(n, width);
  }

  lemma PlainPage(s: Screen, width: nat)
    requires Plain(s, width)
    ensures PageOk(PageOf(s), width, |s.rows|)
  {
  }

  /** Over the whole screen, scrolling up appends blank rows to the page and does nothing else. */
  lemma ScrollGrowsPage(s: Screen, count: nat, width: nat)
    requires Plain(s, width) && count > 0
    ensures PageOk(PageOf(s), width, |s.rows|)
    ensures Plain(AfterScroll(s, count, width), width)
    ensures PageOf(AfterScroll(s, count, width)) == ScrolledUp(PageOf(s), count, width, |s.rows|)
  {
    hide Scrolled, AllOk;
    PlainPage(s, width);
    WholeScreenScroll(s.saved, s.rows, count, width);
  }

  lemma LineFeedOnPage(s: Screen, width: nat)
    requires Plain(s, width)
    ensures Plain(AfterLineFeed(s, width), width)
    ensures PageOf(AfterLineFeed(s, width)) == NextRow(PageOf(s), width)
  {
    hide AfterScroll, AllOk;
    if s.y == s.bottom {
      ScrollGrowsPage(s, 1, width);
      OneBlank(width);
    }
  }

  lemma OneBlank(width: nat)
    ensures Blanks(1, width) == [Blank(width)]
  {
  }

  lemma CharacterOnPage(s: Screen, c: byte, width: nat)
    requires Plain(s, width)
    ensures PageOk(PageOf(s), width, |s.rows|)
    ensures Plain(AfterCharacter(s, c, width), width)
    ensures PageOf(AfterCharacter(s, c, width)) == Typed(PageOf(s), c, s.attr, width, |s.rows|)
  {
    hide AfterLineFeed;
    PlainPage(s, width);
    var row := Written(s.rows[s.y], s.x, c, s.attr);
    var t := s.(rows := s.rows[s.y := row]);
    WrittenOk(s.rows, s.y, s.x, c, s.attr, width);
    assert t.saved + t.rows == (s.saved + s.rows)[|s.saved| + s.y := row];
    if s.x + 1 == width {
      LineFeedOnPage(t, width);
    }
  }

  lemma WrittenOk(rows: seq<Row>, y: nat, x: nat, c: byte, a: Attribute, width: nat)
    requires y < |rows| && x < width && AllOk(rows, width)
    ensures AllOk(rows[y := Written(rows[y], x, c, a)], width)
  {
  }

  /** While the region is the whole screen, text never fails and is text on the page. */
  lemma TextOnPage(s: Screen, c: byte, width: nat)
    requires Plain(s, width)
    ensures PageOk(PageOf(s), width, |s.rows|)
    ensures AfterText(s, c, width).Some? && Plain(AfterText(s, c, width).value, width)
    ensures PageOf(AfterText(s, c, width).value) == TextByte(PageOf(s), c, s.attr, width, |s.rows|)
  {
    hide AfterLineFeed, AfterCharacter, AllOk, Typed, NextRow;
    PlainPage(s, width);
    if c == NEWLINE {
      LineFeedOnPage(s, width);
    } else if c >= SPACE {
      CharacterOnPage(s, c, width);
    }
  }
}
