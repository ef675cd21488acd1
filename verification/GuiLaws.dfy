/** What the control sequences of the graphical terminal do, in the terms of a reader of ECMA-48:
    graphic renditions, cursor addressing, erasing, scroll regions and saved cursors. */
module GuiLaws {
  import opened Options
  import opened Bytes
  import opened ScreenSpec
  import opened GuiTerminal
  import CP = ControlParser

  // ---------------------------------------------------------------------------------------
  // Select graphic rendition (m)

  /** The number of a colour. */
  function Rank(c: Color): nat {
    match c
    case Black => 0
    case Red => 1
    case Green => 2
    case Yellow => 3
    case Blue => 4
    case Magenta => 5
    case Cyan => 6
    case White => 7
  }

  lemma OneMode(a: Attribute, p: int)
    ensures Mode(a, [p]) == ModeStep(a, p)
  {
    hide ModeStep;
    assert Modes(a, [p], 0) == a;
  }

  /** No parameter, or 0: black background, white foreground, not bold. */
  lemma ModeResets(a: Attribute)
    ensures Mode(a, []) == Mode(a, [0]) == Attribute(Black, White, false)
  {
    OneMode(a, 0);
  }

  /** 30 to 37 and 40 to 47 choose a colour by its number, 39 and 49 the default one; the rest of the
      attribute stays. */
  lemma ModeColours(a: Attribute, k: nat)
    requires k < 8
    ensures Rank(Mode(a, [30 + k]).fg) == k && Mode(a, [30 + k]) == a.(fg := Mode(a, [30 + k]).fg)
    ensures Rank(Mode(a, [40 + k]).bg) == k && Mode(a, [40 + k]) == a.(bg := Mode(a, [40 + k]).bg)
    ensures Mode(a, [39]) == Mode(a, [37]) && Mode(a, [49]) == Mode(a, [40])
  {
    OneMode(a, 30 + k);
    OneMode(a, 40 + k);
    OneMode(a, 37);
    OneMode(a, 39);
    OneMode(a, 40);
    OneMode(a, 49);
  }

  /** 1 and 2 switch bold on and off; 7 exchanges the colours, so twice is nothing. */
  lemma ModeBoldAndReverse(a: Attribute)
    ensures Mode(a, [1]) == a.(bold := true) && Mode(a, [2]) == a.(bold := false)
    ensures Mode(a, [7]).fg == a.bg && Mode(a, [7]).bg == a.fg && Mode(Mode(a, [7]), [7]) == a
  {
    OneMode(a, 1);
    OneMode(a, 2);
    OneMode(a, 7);
    OneMode(Mode(a, [7]), 7);
  }

  /** Any other parameter is ignored. */
  lemma ModeIgnores(a: Attribute, p: int)
    requires p < 0 || p in {3, 4, 5, 6, 38, 48} || 8 <= p < 30 || p >= 50
    ensures Mode(a, [p]) == a
  {
    OneMode(a, p);
  }

  /** Parameters act one after the other: one sequence with p and q is a sequence with p and one
      with q. */
  lemma {:induction false} ModesCompose(a: Attribute, p: seq<int>, q: seq<int>, i: nat)
    requires i <= |q|
    ensures Modes(a, p + q, |p| + i) == Modes(Modes(a, p, |p|), q, i)
    decreases i
  {
    hide ModeStep;
    if i == 0 {
      ModesPrefix(a, p, q, |p|);
    } else {
      ModesCompose(a, p, q, i - 1);
    }
  }

  lemma {:induction false} ModesPrefix(a: Attribute, p: seq<int>, q: seq<int>, i: nat)
    requires i <= |p|
    ensures Modes(a, p + q, i) == Modes(a, p, i)
    decreases i
  {
    hide ModeStep;
    if i > 0 {
      ModesPrefix(a, p, q, i - 1);
    }
  }

  // ---------------------------------------------------------------------------------------
  // Cursor

  /** H puts the cursor on a row and a column, both counted from 1, and does nothing else; 0 keeps
      the row or the column, and what is off the screen fails. f is the same; without parameters it
      is the first of each. */
  lemma CursorAddressed(s: Screen, r: int, c: int, p: seq<int>, width: nat)
    requires ScreenOk(s, width)
    ensures AfterControl(s, [r, c], 'H' as int, width)
         == if 0 <= r <= |s.rows| && 0 <= c <= width
            then Some(s.(x := if c == 0 then s.x else c - 1, y := if r == 0 then s.y else r - 1))
            else None
    ensures AfterControl(s, p, 'f' as int, width) == AfterControl(s, p, 'H' as int, width)
    ensures AfterControl(s, [], 'H' as int, width) == AfterControl(s, [1, 1], 'H' as int, width)
  {
    hide AllOk;
  }

  /** d moves to a row and G to a column, in either order what H does in one. */
  lemma RowAndColumn(s: Screen, r: int, c: int, width: nat)
    requires ScreenOk(s, width) && 1 <= r <= |s.rows| && 1 <= c <= width
    ensures var d := AfterControl(s, [r], 'd' as int, width);
            d.Some? && AfterControl(d.value, [c], 'G' as int, width) == AfterControl(s, [r, c], 'H' as int, width)
    ensures var g := AfterControl(s, [c], 'G' as int, width);
            g.Some? && AfterControl(g.value, [r], 'd' as int, width) == AfterControl(s, [r, c], 'H' as int, width)
  {
    hide AllOk;
    var sd, sg := s.(y := r - 1), s.(x := c - 1);
    assert AfterControl(s, [r], 'd' as int, width) == Some(sd);
    assert AfterControl(s, [c], 'G' as int, width) == Some(sg);
  }

  /** A moves k rows up, one without a parameter, exactly when they are there. */
  lemma CursorUp(s: Screen, k: int, width: nat)
    requires ScreenOk(s, width) && OnScreen(s)
    ensures AfterControl(s, [k], 'A' as int, width)
         == if 0 <= s.y - k < |s.rows| then AfterControl(s, [s.y - k + 1], 'd' as int, width) else None
    ensures AfterControl(s, [], 'A' as int, width) == AfterControl(s, [1], 'A' as int, width)
  {
    hide AllOk;
  }

  /** A return goes to the first column of its row; a line feed keeps the column; a tab and other
      control codes do nothing. */
  lemma Motions(s: Screen, c: byte, width: nat)
    requires ScreenOk(s, width)
    ensures AfterText(s, RETURN, width) == Some(s.(x := 0))
    ensures AfterLineFeed(s, width).x == s.x
    ensures AfterLineFeed(s, width).y == if s.y == s.bottom then s.y else s.y + 1
    ensures c < SPACE && c != RETURN && c != NEWLINE && c != BACKSPACE ==> AfterText(s, c, width) == Some(s)
  {
    hide AllOk;
  }

  /** A backspace takes back the motion of the character before it, over the end of a row as well,
      unless that made the region scroll. */
  lemma BackspaceReturns(s: Screen, ch: byte, width: nat)
    requires ScreenOk(s, width) && OnScreen(s)
    ensures s.x + 1 < width || s.y != s.bottom ==>
              var s' := AfterBackSpace(AfterCharacter(s, ch, width), width); s'.x == s.x && s'.y == s.y
  {
    hide AllOk;
  }

  /** The assertions on the number of parameters, and the one of scrollBy. */
  lemma Arity(s: Screen, params: seq<int>, c: byte, width: nat)
    requires ScreenOk(s, width)
    ensures c == 'J' as int || c == 'K' as int ==> (|params| > 1 ==> AfterControl(s, params, c, width).None?)
    ensures c == 'S' as int ==> (AfterControl(s, params, c, width).Some? <==> |params| == 1 && params[0] != 0)
    ensures c == 'd' as int || c == 'G' as int ==> (|params| != 1 ==> AfterControl(s, params, c, width).None?)
    ensures c == 'r' as int ==> (|params| != 2 ==> AfterControl(s, params, c, width).None?)
    ensures c == 'f' as int || c == 'H' as int ==>
              (|params| != 0 && |params| != 2 ==> AfterControl(s, params, c, width).None?)
  {
    hide AllOk, AfterScroll;
  }

  /** Sequences with any other final byte, other escapes and character sets do nothing. */
  lemma OthersIgnored(d: Display, item: CP.Item, width: nat)
    requires ScreenOk(d.screen, width)
    requires match item
             case Control(_, c) => (c as char) !in "AJKSfHdGrm"
             case Escaped(c) => (c as char) !in "78"
             case Charset(_) => true
             case Private(_, c) => (c as char) !in "hl"
             case Text(_) => false
    ensures Interpret(d, item, width) == Some(d)
  {
    hide AllOk, AfterErase, AfterEraseInRow, AfterScroll, Mode;
    if item.Control? {
      var c := item.c as char;
      assert "AJKSfHdGrm" == ['A', 'J', 'K', 'S', 'f', 'H', 'd', 'G', 'r', 'm'];
    }
  }

  // ---------------------------------------------------------------------------------------
  // Cells

  ghost predicate InGrid(s: Screen, r: nat, c: nat, width: nat) {
    ScreenOk(s, width) && r < |s.rows| && c < width
  }

  /** The character and attribute at row r and column c of the screen. */
  ghost function CellAt(s: Screen, r: nat, c: nat, width: nat): (byte, Attribute)
    requires InGrid(s, r, c, width)
  {
    assert RowOk(s.rows[r], width);
    (s.rows[r].text[c], s.rows[r].attr[c])
  }

  /** A character goes to the cell under the cursor, with the current attribute, and to no other. */
  lemma CharacterGoes(s: Screen, ch: byte, r: nat, c: nat, width: nat)
    requires InGrid(s, r, c, width) && OnScreen(s) && s.x + 1 < width
    ensures var s' := AfterCharacter(s, ch, width);
            && InGrid(s', r, c, width) && s'.x == s.x + 1 && s'.y == s.y && s'.saved == s.saved
            && CellAt(s', r, c, width) == (if r == s.y && c == s.x then (ch, s.attr) else CellAt(s, r, c, width))
            && s'.rows[r].dirtyWidth ==
               (if r == s.y && s.rows[r].dirtyWidth <= s.x then s.x + 1 else s.rows[r].dirtyWidth)
  {
  }

  /** A blank row: spaces, white on black, nothing to draw. */
  lemma BlankRow(c: nat, width: nat)
    requires c < width
    ensures RowOk(Blank(width), width) && Blank(width).dirtyWidth == 0
    ensures Blank(width).text[c] == ' ' as int && Blank(width).attr[c] == Attribute(Black, White, false)
  {
  }

  /** A word that fits the row stands where it was typed. */
  lemma {:induction false} WordStands(d: Display, word: seq<byte>, items: seq<CP.Item>, i: nat, width: nat)
    requires ScreenOk(d.screen, width) && OnScreen(d.screen) && d.screen.x + |word| < width && i <= |word| == |items|
    requires forall k :: 0 <= k < |word| ==> word[k] >= SPACE && items[k] == CP.Text(word[k])
    ensures var r := Run(d, items, i, width);
            && r.Some? && OnScreen(r.value.screen)
            && r.value.screen.x == d.screen.x + i && r.value.screen.y == d.screen.y
            && |r.value.screen.rows[d.screen.y].text| == width
            && r.value.screen.rows[d.screen.y].text[d.screen.x..d.screen.x + i] == word[..i]
    decreases i
  {
    if i == 0 {
      assert RowOk(d.screen.rows[d.screen.y], width);
    } else {
      hide AfterText, ScreenOk;
      WordStands(d, word, items, i - 1, width);
      assert items[i - 1] == CP.Text(word[i - 1]);
      TextWritten(Run(d, items, i - 1, width).value.screen, word[i - 1], width);
      assert word[..i] == word[..i - 1] + [word[i - 1]];
    }
  }

  lemma TextWritten(s: Screen, ch: byte, width: nat)
    requires ScreenOk(s, width) && OnScreen(s) && s.x + 1 < width && ch >= SPACE
    ensures |s.rows[s.y].text| == width
    ensures var r := AfterText(s, ch, width);
            && r.Some? && r.value.x == s.x + 1 && r.value.y == s.y && |r.value.rows| == |s.rows|
            && r.value.rows[s.y].text == s.rows[s.y].text[s.x := ch]
  {
    hide AfterLineFeed;
    assert RowOk(s.rows[s.y], width);
  }

  // ---------------------------------------------------------------------------------------
  // Erasing (J and K)

  /** What J erases: without a parameter the cursor's row and all below, with 1 the cursor's row and
      all above, with 2 the whole screen. */
  predicate JErases(s: Screen, params: seq<int>, r: nat) {
    if params == [] then r >= s.y
    else if params[0] == 1 then r <= s.y
    else params[0] == 2
  }

  /** What K erases of the cursor's row: without a parameter from the cursor on, with 1 up to the
      cursor, with 2 all of it. */
  predicate KErases(s: Screen, params: seq<int>, r: nat, c: nat) {
    r == s.y &&
    if params == [] then c >= s.x
    else if params[0] == 1 then c <= s.x
    else params[0] == 2
  }

  /** Exactly these cells become blanks with the current attribute. */
  lemma ErasedCells(s: Screen, params: seq<int>, r: nat, c: nat, width: nat)
    requires InGrid(s, r, c, width) && OnScreen(s) && |params| <= 1
    ensures var j := AfterControl(s, params, 'J' as int, width);
            && j.Some? && InGrid(j.value, r, c, width)
            && CellAt(j.value, r, c, width) == if JErases(s, params, r) then (SPACE, s.attr) else CellAt(s, r, c, width)
    ensures var k := AfterControl(s, params, 'K' as int, width);
            && k.Some? && InGrid(k.value, r, c, width)
            && CellAt(k.value, r, c, width)
               == if KErases(s, params, r, c) then (SPACE, s.attr) else CellAt(s, r, c, width)
  {
    ErasedByJ(s, params, r, c, width);
    ErasedByK(s, params, r, c, width);
    hide *;
  }

  lemma ErasedByJ(s: Screen, params: seq<int>, r: nat, c: nat, width: nat)
    requires InGrid(s, r, c, width) && OnScreen(s) && |params| <= 1
    ensures var j := AfterControl(s, params, 'J' as int, width);
            && j.Some? && InGrid(j.value, r, c, width)
            && CellAt(j.value, r, c, width) == if JErases(s, params, r) then (SPACE, s.attr) else CellAt(s, r, c, width)
  {
    assert RowOk(s.rows[r], width);
  }

  lemma ErasedByK(s: Screen, params: seq<int>, r: nat, c: nat, width: nat)
    requires InGrid(s, r, c, width) && OnScreen(s) && |params| <= 1
    ensures var k := AfterControl(s, params, 'K' as int, width);
            && k.Some? && InGrid(k.value, r, c, width)
            && CellAt(k.value, r, c, width)
               == if KErases(s, params, r, c) then (SPACE, s.attr) else CellAt(s, r, c, width)
  {
    assert RowOk(s.rows[r], width) && RowOk(s.rows[s.y], width);
  }

  /** J with 2 also takes the cursor home; nothing else moves it, and neither J nor K touches the
      history, the region, the attribute or the saved cursor. */
  lemma ErasingMovesOnlyHome(s: Screen, params: seq<int>, width: nat)
    requires ScreenOk(s, width) && OnScreen(s) && |params| <= 1
    ensures var j := AfterControl(s, params, 'J' as int, width);
            && j.Some?
            && j.value.(rows := s.rows) == if params == [2] then s.(x := 0, y := 0) else s
    ensures var k := AfterControl(s, params, 'K' as int, width);
            k.Some? && k.value.(rows := s.rows) == s
  {
    hide AllOk;
  }

  // ---------------------------------------------------------------------------------------
  // Scroll regions (r and S)

  /** r sets the region to rows t to b, counted from 1, and does nothing else. */
  lemma RegionSet(s: Screen, t: int, b: int, width: nat)
    requires ScreenOk(s, width)
    ensures AfterControl(s, [t, b], 'r' as int, width)
         == if 1 <= t <= b <= |s.rows| then Some(s.(top := t - 1, bottom := b - 1)) else None
  {
    hide AllOk;
  }

  /** Scrolling moves rows inside the region only: row r shows what was count rows below it, or a
      blank if that is not in the region; rows outside stay. A region that starts at the top saves
      count rows of the screen, even if it is smaller itself; another saves none. */
  lemma RegionScrolls(s: Screen, count: nat, r: nat, width: nat)
    requires ScreenOk(s, width) && r < |s.rows| && count > 0
    ensures var s' := AfterScroll(s, count, width);
            && s'.rows[r] == (if r < s.top || r > s.bottom then s.rows[r]
                              else if r + count <= s.bottom then s.rows[r + count]
                              else Blank(width))
            && s'.saved == (if s.top > 0 then s.saved
                            else if count < |s.rows| then s.saved + s.rows[..count]
                            else s.saved + s.rows)
            && s' == s.(rows := s'.rows, saved := s'.saved)
  {
    assert s.rows[..|s.rows|] == s.rows;
  }

  /** Scrolling down is not implemented: it blanks the region if it is as far as the region is high,
      and otherwise does nothing; it never saves a row. */
  lemma RegionScrollsBack(s: Screen, count: int, r: nat, width: nat)
    requires ScreenOk(s, width) && r < |s.rows| && count < 0
    ensures var s' := AfterScroll(s, count, width);
            && s' == s.(rows := s'.rows)
            && s'.rows[r] == if s.top <= r <= s.bottom < s.top - count then Blank(width) else s.rows[r]
  {
    assert s.saved + [] == s.saved;
  }

  // ---------------------------------------------------------------------------------------
  // Saved cursors and cursor keys

  /** ESC 8 gives back the cursor and the attribute of the last ESC 7, whatever came in between. */
  lemma {:induction false} SavedComesBack(d: Display, items: seq<CP.Item>, i: nat, width: nat)
    requires ScreenOk(d.screen, width) && 0 < i <= |items| && items[0] == CP.Escaped('7' as int)
    requires forall k :: 0 < k < i ==> items[k] != CP.Escaped('7' as int)
    requires Run(d, items, i, width).Some?
    ensures var s := Run(d, items, i, width).value.screen;
            var back := AfterEscaped(s, '8' as int);
            && back.Some? && back.value.x == d.screen.x && back.value.y == d.screen.y
            && back.value.attr == d.screen.attr && back.value.rows == s.rows && back.value.saved == s.saved
    decreases i
  {
    hide ScreenOk;
    if i == 1 {
      assert Run(d, items, 0, width) == Some(d);
    } else {
      hide Interpret;
      SavedComesBack(d, items, i - 1, width);
      MarkStep(Run(d, items, i - 1, width).value, items[i - 1], width);
    }
  }

  /** ESC [ ? 1 h switches the alternate cursor keys on and l off; nothing else does, and neither
      touches the screen. */
  lemma CursorKeys(d: Display, item: CP.Item, width: nat)
    requires ScreenOk(d.screen, width) && Interpret(d, item, width).Some?
    ensures Interpret(d, item, width).value.alternate
         == if item == CP.Private([1], 'h' as int) then true
            else if item == CP.Private([1], 'l' as int) then false
            else d.alternate
    ensures item.Private? ==> Interpret(d, item, width).value.screen == d.screen
  {
    hide AllOk, AfterText, AfterControl;
  }
}
