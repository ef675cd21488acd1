/** The graphical terminal from bytes to rows: the actions that handleNone, handleEscape,
    handleSquareBracket, handleQuestion and updateMode take in
    source/applications/gui/terminal/terminalparser.cpp once a sequence is recognised.

    An action that would fail an assertion, or leave the rows, or use a cursor that was never
    saved, has no result. */
module GuiTerminal {
  import opened Options
  import opened Bytes
  import opened ScreenSpec
  import opened HistoryBuffer
  import CP = ControlParser

  // ---------------------------------------------------------------------------------------
  // What an item does

  function ColorOf(n: int): Color
    requires 0 <= n < 8
  {
    [Black, Red, Green, Yellow, Blue, Magenta, Cyan, White][n]
  }

  /** One parameter of updateMode. */
  function ModeStep(a: Attribute, p: int): Attribute {
    if p == 0 then PLAIN
    else if p == 1 then a.(bold := true)
    else if p == 2 then a.(bold := false)
    else if p == 7 then a.(bg := a.fg, fg := a.bg)
    else if 30 <= p <= 37 then a.(fg := ColorOf(p - 30))
    else if p == 39 then a.(fg := White)
    else if 40 <= p <= 47 then a.(bg := ColorOf(p - 40))
    else if p == 49 then a.(bg := Black)
    else a
  }

  function Modes(a: Attribute, params: seq<int>, i: nat): Attribute
    requires i <= |params|
  {
    if i == 0 then a else ModeStep(Modes(a, params, i - 1), params[i - 1])
  }

  /** updateMode */
  function Mode(a: Attribute, params: seq<int>): Attribute {
    if params == [] then PLAIN else Modes(a, params, |params|)
  }

  /** J: erase below, above, or everything. */
  ghost function AfterErase(s: Screen, params: seq<int>, width: nat): (r: Option<Screen>)
    requires ScreenOk(s, width)
  {
    if |params| > 1 then None
    else if params == [] then Some(s.(rows := ErasedRows(s.rows, s.y, |s.rows|, s.attr, width)))
    else if params[0] == 1 then
      if OnScreen(s) then Some(s.(rows := ErasedRows(s.rows, 0, s.y + 1, s.attr, width))) else None
    else if params[0] == 2 then Some(s.(rows := ErasedRows(s.rows, 0, |s.rows|, s.attr, width), x := 0, y := 0))
    else Some(s)
  }

  /** K: erase after or before the cursor, or its row. */
  ghost function AfterEraseInRow(s: Screen, params: seq<int>, width: nat): (r: Option<Screen>)
    requires ScreenOk(s, width)
  {
    if |params| > 1 then None
    else if params != [] && params[0] != 1 && params[0] != 2 then Some(s)
    else if !OnScreen(s) then None
    else if params == [] then Some(s.(rows := s.rows[s.y := Erased(s.rows[s.y], s.attr, s.x, width - 1)]))
    else if params[0] == 1 then Some(s.(rows := s.rows[s.y := Erased(s.rows[s.y], s.attr, 0, s.x)]))
    else Some(s.(rows := ErasedRows(s.rows, s.y, s.y + 1, s.attr, width)))
  }

  /** The final byte of a control sequence. */
  ghost function AfterControl(s: Screen, params: seq<int>, c: byte, width: nat): (r: Option<Screen>)
    requires ScreenOk(s, width)
    ensures r.Some? ==> ScreenOk(r.value, width) && |r.value.rows| == |s.rows| && s.saved <= r.value.saved
  {
    if c == 'A' as int then AfterMoveBy(s, 0, if params == [] then -1 else -params[0], width)
    else if c == 'J' as int then AfterErase(s, params, width)
    else if c == 'K' as int then AfterEraseInRow(s, params, width)
    else if c == 'S' as int then
      if |params| == 1 && params[0] != 0 then Some(AfterScroll(s, params[0], width)) else None
    else if c == 'f' as int || c == 'H' as int then
      if params == [] then AfterMoveTo(s, 0, 0, width)
      else if |params| == 2 then AfterMoveTo(s, params[1] - 1, params[0] - 1, width)
      else None
    else if c == 'd' as int then if |params| == 1 then AfterMoveTo(s, -1, params[0] - 1, width) else None
    else if c == 'G' as int then if |params| == 1 then AfterMoveTo(s, params[0] - 1, -1, width) else None
    else if c == 'r' as int then
      if |params| == 2 && 0 <= params[0] - 1 <= params[1] - 1 < |s.rows|
      then Some(s.(top := params[0] - 1, bottom := params[1] - 1))
      else None
    else if c == 'm' as int then Some(s.(attr := Mode(s.attr, params)))
    else Some(s)
  }

  /** ESC 7 saves, ESC 8 restores. */
  ghost function AfterEscaped(s: Screen, c: byte): Option<Screen> {
    if c == '7' as int then Some(s.(mark := Some(Mark(s.x, s.y, s.attr))))
    else if c == '8' as int then
      if s.mark.Some? then Some(s.(x := s.mark.value.x, y := s.mark.value.y, attr := s.mark.value.attr)) else None
    else Some(s)
  }

  /** The screen and m_useAlternateCursorKeys. */
  datatype Display = Display(screen: Screen, alternate: bool)

  /** ESC [ ? ... h and l. */
  function AfterPrivate(alternate: bool, params: seq<int>, c: byte): Option<bool> {
    if c != 'h' as int && c != 'l' as int then Some(alternate)
    else if |params| != 1 then None
    else Some(if params[0] == 1 then c == 'h' as int else alternate)
  }

  ghost function WithScreen(d: Display, s: Option<Screen>): Option<Display> {
    if s.Some? then Some(d.(screen := s.value)) else None
  }

  ghost function Interpret(d: Display, item: CP.Item, width: nat): (r: Option<Display>)
    requires ScreenOk(d.screen, width)
    ensures r.Some? ==>
      && ScreenOk(r.value.screen, width)
      && |r.value.screen.rows| == |d.screen.rows|
      && d.screen.saved <= r.value.screen.saved
  {
    match item
    case Text(c) => WithScreen(d, AfterText(d.screen, c, width))
    case Escaped(c) => WithScreen(d, AfterEscaped(d.screen, c))
    case Charset(_) => Some(d)
    case Control(params, c) => WithScreen(d, AfterControl(d.screen, params, c, width))
    case Private(params, c) =>
      var alternate := AfterPrivate(d.alternate, params, c);
      if alternate.Some? then Some(d.(alternate := alternate.value)) else None
  }

  // ---------------------------------------------------------------------------------------
  // Runs

  /** The first i items, as far as nothing fails. */
  ghost function Run(d: Display, items: seq<CP.Item>, i: nat, width: nat): (r: Option<Display>)
    requires ScreenOk(d.screen, width) && i <= |items|
    ensures r.Some? ==> ScreenOk(r.value.screen, width) && |r.value.screen.rows| == |d.screen.rows|
    decreases i
  {
    if i == 0 then Some(d)
    else
      var before := Run(d, items, i - 1, width);
      if before.Some? then Interpret(before.value, items[i - 1], width) else None
  }

  /** Rows that have left the screen never change: whatever is displayed later, with any
      control sequences and scroll regions, the history of now is its beginning. */
  lemma {:induction false} HistoryNeverChanges(d: Display, items: seq<CP.Item>, i: nat, j: nat, width: nat)
    requires ScreenOk(d.screen, width) && i <= j <= |items| && Run(d, items, j, width).Some?
    ensures Run(d, items, i, width).Some?
    ensures Run(d, items, i, width).value.screen.saved <= Run(d, items, j, width).value.screen.saved
    decreases j
  {
    hide Interpret, ScreenOk;
    if i < j {
      HistoryNeverChanges(d, items, i, j - 1, width);
    }
  }

  lemma {:induction false} RunPrefix(d: Display, items: seq<CP.Item>, more: seq<CP.Item>, i: nat, width: nat)
    requires ScreenOk(d.screen, width) && i <= |items|
    ensures Run(d, items + more, i, width) == Run(d, items, i, width)
    decreases i
  {
    hide Interpret, ScreenOk;
    if i > 0 {
      RunPrefix(d, items, more, i - 1, width);
    }
  }

  // ---------------------------------------------------------------------------------------
  // Text, colours and scrolling up are a page that grows

  predicate PlainItem(item: CP.Item) {
    || item.Text?
    || (item.Control? && item.c == 'm' as int)
    || (item.Control? && item.c == 'S' as int && |item.params| == 1 && item.params[0] > 0)
  }

  /** A page and the attribute of the next character. */
  datatype Paper = Paper(page: Page, attr: Attribute)

  ghost predicate PaperOk(p: Paper, width: nat, height: nat) {
    PageOk(p.page, width, height)
  }

  ghost function OnPaper(p: Paper, item: CP.Item, width: nat, height: nat): (q: Paper)
    requires PaperOk(p, width, height) && PlainItem(item)
    ensures PaperOk(q, width, height)
  {
    if item.Text? then p.(page := TextByte(p.page, item.c, p.attr, width, height))
    else if item.c == 'm' as int then p.(attr := Mode(p.attr, item.params))
    else p.(page := ScrolledUp(p.page, item.params[0], width, height))
  }

  ghost predicate AllPlain(items: seq<CP.Item>) {
    forall i :: 0 <= i < |items| ==> PlainItem(items[i])
  }

  ghost function PaperRun(p: Paper, items: seq<CP.Item>, i: nat, width: nat, height: nat): (q: Paper)
    requires PaperOk(p, width, height) && AllPlain(items) && i <= |items|
    ensures PaperOk(q, width, height)
    decreases i
  {
    if i == 0 then p else OnPaper(PaperRun(p, items, i - 1, width, height), items[i - 1], width, height)
  }

  ghost function PaperOf(s: Screen): Paper {
    Paper(PageOf(s), s.attr)
  }

  lemma PlainStep(d: Display, item: CP.Item, width: nat)
    requires Plain(d.screen, width) && PlainItem(item)
    ensures PaperOk(PaperOf(d.screen), width, |d.screen.rows|)
    ensures var r := Interpret(d, item, width);
            && r.Some? && Plain(r.value.screen, width) && |r.value.screen.rows| == |d.screen.rows|
            && PaperOf(r.value.screen) == OnPaper(PaperOf(d.screen), item, width, |d.screen.rows|)
  {
    hide AfterText, AfterScroll, TextByte, ScrolledUp, Mode;
    PlainPage(d.screen, width);
    if item.Text? {
      TextOnPage(d.screen, item.c, width);
      TextKeepsAttribute(d.screen, item.c, width);
    } else if item.c == 'S' as int {
      ScrollGrowsPage(d.screen, item.params[0], width);
      ScrollKeepsAttribute(d.screen, item.params[0], width);
    }
  }

  lemma TextKeepsAttribute(s: Screen, c: byte, width: nat)
    requires ScreenOk(s, width)
    ensures AfterText(s, c, width).Some? ==> AfterText(s, c, width).value.attr == s.attr
  {
  }

  lemma ScrollKeepsAttribute(s: Screen, count: int, width: nat)
    requires ScreenOk(s, width)
    ensures AfterScroll(s, count, width).attr == s.attr
  {
  }

  /** While the scroll region is the whole screen, plain items never fail, and history and
      screen together are the page they make. */
  lemma {:induction false} PlainRun(d: Display, items: seq<CP.Item>, i: nat, width: nat)
    requires Plain(d.screen, width) && AllPlain(items) && i <= |items|
    ensures PaperOk(PaperOf(d.screen), width, |d.screen.rows|)
    ensures var r := Run(d, items, i, width);
            && r.Some? && Plain(r.value.screen, width) && |r.value.screen.rows| == |d.screen.rows|
            && PaperOf(r.value.screen) == PaperRun(PaperOf(d.screen), items, i, width, |d.screen.rows|)
    decreases i
  {
    hide Interpret, OnPaper, Plain, PaperOf, PaperOk;
    PlainIsOk(d.screen, width);
    if i > 0 {
      PlainRun(d, items, i - 1, width);
      PlainStep(Run(d, items, i - 1, width).value, items[i - 1], width);
    }
  }

  lemma PlainIsOk(s: Screen, width: nat)
    requires Plain(s, width)
    ensures ScreenOk(s, width) && PaperOk(PaperOf(s), width, |s.rows|)
  {
    PlainPage(s, width);
  }

  // ---------------------------------------------------------------------------------------
  // The actions in memory

  /** updateMode */
  method UpdateMode(a: Attribute, params: seq<int>) returns (r: Attribute)
    ensures r == Mode(a, params)
  {
    if params == [] {
      return PLAIN;
    }
    r := a;
    for i := 0 to |params|
      invariant r == Modes(a, params, i)
    {
      r := ModeStep(r, params[i]);
    }
  }

  /** The branches for J and K. */
  method Erase(b: TerminalBuffer, params: seq<int>) returns (ok: bool)
    requires b.Valid()
    modifies b`screen, b`cursorX, b`cursorY, b.lines[..]
    ensures b.Valid() && (ok <==> AfterErase(old(b.Now()), params, b.width).Some?)
    ensures ok ==> b.Now() == AfterErase(old(b.Now()), params, b.width).value
  {
    hide Shows, Distinct, ErasedRows;
    ok := |params| <= 1;
    if !ok { return; }
    if params == [] {
      if b.cursorY < b.height {
        b.EraseRows(b.cursorY, b.height);
      } else {
        NothingBelow(b.screen, b.cursorY, b.attrib, b.width);
      }
    } else if params[0] == 1 {
      ok := b.cursorY < b.height;
      if ok { b.EraseRows(0, b.cursorY + 1); }
    } else if params[0] == 2 {
      b.EraseRows(0, b.height);
      ok := b.MoveCursorTo(0, 0);
    }
  }

  lemma NothingBelow(rows: seq<Row>, y: nat, a: Attribute, width: nat)
    requires AllOk(rows, width) && |rows| <= y
    ensures ErasedRows(rows, y, |rows|, a, width) == rows
  {
  }

  method EraseInRow(b: TerminalBuffer, params: seq<int>) returns (ok: bool)
    requires b.Valid()
    modifies b`screen, b.lines[..]
    ensures b.Valid() && (ok <==> AfterEraseInRow(old(b.Now()), params, b.width).Some?)
    ensures ok ==> b.Now() == AfterEraseInRow(old(b.Now()), params, b.width).value
  {
    hide Shows, Distinct, ErasedRows, Erased;
    ok := |params| <= 1;
    if !ok { return; }
    if params == [] {
      ok := b.cursorY < b.height;
      if ok { b.EraseCells(b.cursorX, -1); }
    } else if params[0] == 1 {
      ok := b.cursorY < b.height;
      if ok { b.EraseCells(0, b.cursorX); }
    } else if params[0] == 2 {
      ok := b.cursorY < b.height;
      if ok { b.EraseRows(b.cursorY, b.cursorY + 1); }
    }
  }

  /** handleSquareBracket, for a final byte. */
  method HandleControl(b: TerminalBuffer, params: seq<int>, c: byte) returns (ok: bool)
    requires b.Valid()
    modifies b, b.lines, b.lines[..]
    ensures b.Valid() && b.Kept(old(b.lines[..]), old(b.history))
    ensures ok <==> AfterControl(old(b.Now()), params, c, b.width).Some?
    ensures ok ==> b.Now() == AfterControl(old(b.Now()), params, c, b.width).value
  {
    hide Shows, Distinct, AllOk, AfterErase, AfterEraseInRow, AfterScroll, Mode;
    ok := true;
    if c == 'A' as int {
      ok := b.MoveCursorBy(0, if params == [] then -1 else -params[0]);
    } else if c == 'J' as int {
      ok := Erase(b, params);
    } else if c == 'K' as int {
      ok := EraseInRow(b, params);
    } else if c == 'S' as int {
      ok := |params| == 1 && params[0] != 0;
      if ok { b.ScrollBy(params[0]); }
    } else if c == 'f' as int || c == 'H' as int {
      if params == [] {
        ok := b.MoveCursorTo(0, 0);
      } else if |params| == 2 {
        ok := b.MoveCursorTo(params[1] - 1, params[0] - 1);
      } else {
        ok := false;
      }
    } else if c == 'd' as int {
      ok := |params| == 1;
      if ok { ok := b.MoveCursorTo(-1, params[0] - 1); }
    } else if c == 'G' as int {
      ok := |params| == 1;
      if ok { ok := b.MoveCursorTo(params[0] - 1, -1); }
    } else if c == 'r' as int {
      ok := |params| == 2;
      if ok { ok := b.SetScrollRegion(params[0] - 1, params[1] - 1); }
    } else if c == 'm' as int {
      var attrib := UpdateMode(b.attrib, params);
      b.attrib := attrib;
    }
  }

  method HandleItem(b: TerminalBuffer, alternate: bool, item: CP.Item) returns (ok: bool, alternate': bool)
    requires b.Valid()
    modifies b, b.lines, b.lines[..]
    ensures b.Valid() && b.Kept(old(b.lines[..]), old(b.history))
    ensures ok <==> Interpret(Display(old(b.Now()), alternate), item, b.width).Some?
    ensures ok ==> Display(b.Now(), alternate') == Interpret(Display(old(b.Now()), alternate), item, b.width).value
  {
    hide Shows, Distinct, AllOk, AfterText, AfterControl;
    ok, alternate' := true, alternate;
    match item
    case Text(c) => ok := b.InsertText(c);
    case Escaped(c) =>
      if c == '7' as int {
        b.SaveMark();
      } else if c == '8' as int {
        ok := b.RestoreMark();
      }
    case Charset(_) =>
    case Control(params, c) => ok := HandleControl(b, params, c);
    case Private(params, c) =>
      if c == 'h' as int || c == 'l' as int {
        ok := |params| == 1;
        if ok && params[0] == 1 { alternate' := c == 'h' as int; }
      }
  }

  // ---------------------------------------------------------------------------------------
  // From bytes to rows

  /** The items of a stream from a given one on. It stops at the first that fails. */
  method PerformItems(b: TerminalBuffer, alternate: bool, items: seq<CP.Item>, from: nat, ghost start: Display)
    returns (ok: bool, alternate': bool)
    requires b.Valid() && from <= |items| && ScreenOk(start.screen, b.width)
    requires Run(start, items, from, b.width) == Some(Display(b.Now(), alternate))
    modifies b, b.lines, b.lines[..]
    ensures b.Valid() && b.Kept(old(b.lines[..]), old(b.history))
    ensures ok <==> Run(start, items, |items|, b.width).Some?
    ensures ok ==> Run(start, items, |items|, b.width) == Some(Display(b.Now(), alternate'))
  {
    hide Shows, Distinct, AllOk, Interpret, ScreenOk;
    ok, alternate' := true, alternate;
    var i := from;
    while i < |items|
      invariant from <= i <= |items| && ok
      invariant b.Valid() && b.Kept(old(b.lines[..]), old(b.history))
      invariant forall j :: 0 <= j < b.height ==> b.lines[j] in old(b.lines[..])
      invariant Run(start, items, i, b.width) == Some(Display(b.Now(), alternate'))
    {
      ghost var past := b.history;
      assert Run(start, items, i + 1, b.width) == Interpret(Display(b.Now(), alternate'), items[i], b.width);
      ok, alternate' := HandleItem(b, alternate', items[i]);
      assert b.history[|old(b.history)|..] == past[|old(b.history)|..] + b.history[|past|..];
      if !ok {
        StaysFailed(start, items, i + 1, b.width);
        return;
      }
      i := i + 1;
    }
  }

  lemma StaysFailed(d: Display, items: seq<CP.Item>, i: nat, width: nat)
    requires ScreenOk(d.screen, width) && i <= |items| && Run(d, items, i, width).None?
    ensures Run(d, items, |items|, width).None?
  {
    hide Run, ScreenOk;
    if Run(d, items, |items|, width).Some? {
      HistoryNeverChanges(d, items, i, |items|, width);
    }
  }

  const START := CP.Parser(CP.Plain, [], true, [])

  /** All the items in a stream that arrives in pieces. */
  ghost function ItemsOf(pieces: seq<seq<byte>>, i: nat): seq<CP.Item>
    requires i <= |pieces|
  {
    CP.FeedAll(START, CP.Together(pieces, i)).items
  }

  lemma ItemsStep(pieces: seq<seq<byte>>, i: nat)
    requires i < |pieces|
    ensures ItemsOf(pieces, i) <= ItemsOf(pieces, i + 1)
    ensures CP.FeedAll(START, CP.Together(pieces, i + 1))
         == CP.FeedAll(CP.FeedAll(START, CP.Together(pieces, i)), pieces[i])
  {
    hide CP.Feed, CP.Step;
    CP.FeedSplit(START, CP.Together(pieces, i), pieces[i]);
    CP.ItemsGrow(CP.FeedAll(START, CP.Together(pieces, i)), pieces[i], |pieces[i]|);
  }

  lemma {:induction false} ItemsPrefix(pieces: seq<seq<byte>>, i: nat, n: nat)
    requires i <= n <= |pieces|
    ensures ItemsOf(pieces, i) <= ItemsOf(pieces, n)
    decreases n
  {
    hide ItemsOf;
    if i < n {
      ItemsPrefix(pieces, i, n - 1);
      ItemsStep(pieces, n - 1);
    }
  }

  ghost function Shown(width: nat, height: nat, items: seq<CP.Item>): Option<Display>
    requires 0 < width && 0 < height
  {
    Run(Display(Initial(width, height), false), items, |items|, width)
  }

  /** Text that feeds a line from the last row, below a scroll region that ends above it. */
  predicate FeedsOff(s: Screen, item: CP.Item, width: nat) {
    && s.bottom < s.y == |s.rows| - 1
    && item.Text? && (item.c == NEWLINE || (item.c >= SPACE && s.x + 1 == width))
  }

  /** ESC 8 with a cursor that was saved off the screen. */
  predicate RestoresOff(s: Screen, item: CP.Item) {
    item == CP.Escaped('8' as int) && s.mark.Some? && s.mark.value.y >= |s.rows|
  }

  /** These are the two ways from a cursor on the screen to one off it. */
  lemma LeavesScreen(d: Display, item: CP.Item, width: nat)
    requires ScreenOk(d.screen, width) && OnScreen(d.screen) && Interpret(d, item, width).Some?
    ensures !OnScreen(Interpret(d, item, width).value.screen) <==>
            FeedsOff(d.screen, item, width) || RestoresOff(d.screen, item)
  {
    hide AllOk, Scrolled, Mode;
  }

  /** The cursor and any saved cursor are on the screen. */
  predicate Near(s: Screen) {
    OnScreen(s) && (s.mark.Some? ==> s.mark.value.y < |s.rows|)
  }

  lemma NearStep(d: Display, item: CP.Item, width: nat)
    requires ScreenOk(d.screen, width) && Near(d.screen) && Interpret(d, item, width).Some?
    ensures Near(Interpret(d, item, width).value.screen) <==> !FeedsOff(d.screen, item, width)
  {
    LeavesScreen(d, item, width);
    MarkStep(d, item, width);
  }

  lemma MarkStep(d: Display, item: CP.Item, width: nat)
    requires ScreenOk(d.screen, width) && Interpret(d, item, width).Some?
    ensures var s, s' := d.screen, Interpret(d, item, width).value.screen;
            s'.mark == if item == CP.Escaped('7' as int) then Some(Mark(s.x, s.y, s.attr)) else s.mark
  {
    hide AllOk, Scrolled, Mode;
  }

  /** Over a run, then, there is one cause: cursor and saved cursor have been on the screen all
      along if and only if no item so far has fed a line off it. */
  lemma {:induction false} NearUntilFedOff(d: Display, items: seq<CP.Item>, i: nat, width: nat)
    requires ScreenOk(d.screen, width) && Near(d.screen) && i <= |items| && Run(d, items, i, width).Some?
    ensures forall j :: 0 <= j <= i ==> Run(d, items, j, width).Some?
    ensures (forall j :: 0 <= j <= i ==> Near(Run(d, items, j, width).value.screen)) <==>
            (forall j :: 0 <= j < i ==> !FeedsOff(Run(d, items, j, width).value.screen, items[j], width))
    decreases i
  {
    hide ScreenOk, Near, FeedsOff, Interpret;
    forall j | 0 <= j <= i ensures Run(d, items, j, width).Some? {
      HistoryNeverChanges(d, items, j, i, width);
    }
    if i > 0 {
      NearUntilFedOff(d, items, i - 1, width);
      var before := Run(d, items, i - 1, width).value;
      if Near(before.screen) {
        NearStep(before, items[i - 1], width);
      }
    }
  }

  /** A region above the last row, the cursor on that row, a line feed: nothing fails, and the
      cursor is off the screen. */
  function FeedOff(): seq<CP.Item> {
    [CP.Control([1, 1], 'r' as int), CP.Control([2, 1], 'H' as int), CP.Text(NEWLINE)]
  }

  lemma FedOff()
    ensures Shown(2, 2, FeedOff()).Some? && !OnScreen(Shown(2, 2, FeedOff()).value.screen)
  {
    var items, d := FeedOff(), Display(Initial(2, 2), false);
    assert Run(d, items, 1, 2) == Some(d.(screen := d.screen.(top := 0, bottom := 0)));
    assert Run(d, items, 2, 2) == Some(d.(screen := d.screen.(top := 0, bottom := 0, y := 1)));
    assert Run(d, items, 3, 2) == Some(d.(screen := d.screen.(top := 0, bottom := 0, y := 2)));
  }

  /** The next character fails the assertion of insertCharacter. */
  lemma FedOffFails()
    ensures Shown(2, 2, FeedOff() + [CP.Text('A' as int)]).None?
  {
    hide Run, Initial;
    var d := Display(Initial(2, 2), false);
    var more := [CP.Text('A' as int)];
    FedOff();
    RunPrefix(d, FeedOff(), more, |FeedOff()|, 2);
    LastItem(d, FeedOff() + more, 2);
  }

  lemma {:induction false} LastItem(d: Display, items: seq<CP.Item>, width: nat)
    requires ScreenOk(d.screen, width) && items != [] && items[|items| - 1] == CP.Text('A' as int)
    requires Run(d, items, |items| - 1, width).Some?
    requires !OnScreen(Run(d, items, |items| - 1, width).value.screen)
    ensures Run(d, items, |items|, width).None?
  {
  }

  /** With the cursor saved there, moved home and restored, no text is needed to leave. */
  lemma RestoredOff()
    ensures var items := FeedOff() + [CP.Escaped('7' as int), CP.Control([], 'H' as int)];
            var back := items + [CP.Escaped('8' as int)];
            && Shown(2, 2, items).Some? && OnScreen(Shown(2, 2, items).value.screen)
            && Shown(2, 2, back).Some? && !OnScreen(Shown(2, 2, back).value.screen)
  {
    hide Initial;
    var d := Display(Initial(2, 2), false);
    var items := FeedOff() + [CP.Escaped('7' as int), CP.Control([], 'H' as int)];
    var back := items + [CP.Escaped('8' as int)];
    FedOff();
    RunPrefix(d, FeedOff(), items[3..], 3, 2);
    assert items == FeedOff() + items[3..];
    var fed := Run(d, items, 3, 2).value;
    var mark := Mark(fed.screen.x, fed.screen.y, fed.screen.attr);
    var marked := fed.(screen := fed.screen.(mark := Some(mark)));
    assert Run(d, items, 4, 2) == Some(marked);
    assert Run(d, items, 5, 2) == Some(marked.(screen := marked.screen.(x := 0, y := 0)));
    RunPrefix(d, items, back[5..], 5, 2);
    assert back == items + back[5..];
    assert Run(d, back, 6, 2).value.screen.y == mark.y;
  }

  /** What failed for the first pieces has failed for all. */
  lemma PieceFails(width: nat, height: nat, pieces: seq<seq<byte>>, i: nat)
    requires 0 < width && 0 < height && i <= |pieces| && Shown(width, height, ItemsOf(pieces, i)).None?
    ensures Shown(width, height, ItemsOf(pieces, |pieces|)).None?
  {
    hide ItemsOf, Run, Initial;
    var d := Display(Initial(width, height), false);
    var a, b := ItemsOf(pieces, i), ItemsOf(pieces, |pieces|);
    ItemsPrefix(pieces, i, |pieces|);
    assert b == a + b[|a|..];
    RunPrefix(d, a, b[|a|..], |a|, width);
    StaysFailed(d, b, |a|, width);
  }

  /** The whole terminal: bytes in any pieces, through parser and buffer, and what lineAt then
      shows of history and screen. It fails exactly when the items in the bytes do. */
  method Show(pieces: seq<seq<byte>>, width: nat, height: nat) returns (ok: bool, rows: seq<Row>, alternate: bool)
    requires 0 < width && 0 < height
    ensures ok <==> Shown(width, height, ItemsOf(pieces, |pieces|)).Some?
    ensures ok ==> var d := Shown(width, height, ItemsOf(pieces, |pieces|)).value;
                   rows == d.screen.saved + d.screen.rows && alternate == d.alternate
  {
    hide Shows, Distinct, AllOk, Run, CP.FeedAll, Initial;
    var buffer := new TerminalBuffer(width, height);
    var parser := new CP.TerminalParser();
    ghost var start := Display(buffer.Now(), false);
    NothingYet(start, pieces, width);
    ok, rows, alternate := true, [], false;
    for i := 0 to |pieces|
      invariant ok && buffer.Valid() && buffer.width == width && buffer.height == height
      invariant fresh(buffer) && fresh(buffer.lines) && fresh(parser)
      invariant forall j :: 0 <= j < height ==> fresh(buffer.lines[j])
      invariant CP.ParserOk(parser.Value()) && parser.Value() == CP.FeedAll(START, CP.Together(pieces, i))
      invariant Run(start, parser.items, |parser.items|, width) == Some(Display(buffer.Now(), alternate))
    {
      var before := parser.items;
      parser.HandleData(pieces[i]);
      ItemsStep(pieces, i);
      assert parser.items == before + parser.items[|before|..];
      RunPrefix(start, before, parser.items[|before|..], |before|, width);
      ghost var was := buffer.lines[..];
      ok, alternate := PerformItems(buffer, alternate, parser.items, |before|, start);
      assert forall j :: 0 <= j < height ==> buffer.lines[j] in was;
      if !ok {
        PieceFails(width, height, pieces, i + 1);
        return;
      }
    }
    rows := ReadAll(buffer);
  }

  lemma NothingYet(d: Display, pieces: seq<seq<byte>>, width: nat)
    requires ScreenOk(d.screen, width)
    ensures Run(d, [], 0, width) == Some(d) && START == CP.FeedAll(START, CP.Together(pieces, 0))
  {
    CP.FeedNothing(START);
  }

  /** Every row that lineAt gives. */
  method ReadAll(b: TerminalBuffer) returns (rows: seq<Row>)
    requires b.Valid()
    ensures rows == b.saved + b.screen
  {
    rows := [];
    for i := 0 to |b.history| + b.height
      invariant rows == (b.saved + b.screen)[..i]
    {
      var line := b.LineAt(i);
      rows := rows + [Row(line.text, line.attr, line.dirtyWidth)];
    }
  }

  /** An encoded stream of text, colours and scrolling shows the page that its items make,
      however it is cut into pieces. */
  lemma EncodedPage(pieces: seq<seq<byte>>, sent: seq<CP.Item>, width: nat, height: nat)
    requires 0 < width && 0 < height && CP.ItemsOk(sent) && AllPlain(sent)
    requires CP.Together(pieces, |pieces|) == CP.EncodeAll(sent, |sent|)
    ensures ItemsOf(pieces, |pieces|) == sent
    ensures PaperOk(PaperOf(Initial(width, height)), width, height)
    ensures var r := Shown(width, height, sent);
            && r.Some?
            && PaperOf(r.value.screen) == PaperRun(PaperOf(Initial(width, height)), sent, |sent|, width, height)
  {
    hide CP.FeedAll, CP.EncodeAll, Run, PaperRun, PaperOf, AllOk;
    CP.StreamRoundTrip(START, sent, |sent|);
    assert [] + sent[..|sent|] == sent;
    PlainRun(Display(Initial(width, height), false), sent, |sent|, width);
  }
}
