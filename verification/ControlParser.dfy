/** The control-sequence parser of the graphical terminal: handleData and the five handlers
    it selects in source/applications/gui/terminal/terminalparser.cpp.

    What a handler asks of the screen is recorded as an item. Writing items out in the form
    of section 5.4 of ECMA-48 and parsing them gives the same items back. */
module ControlParser {
  import opened Bytes

  const ESC: byte := 27
  const ZERO: byte := 48
  const NINE: byte := 57
  const SEMICOLON: byte := 59
  const OPEN_ROUND: byte := 40
  const OPEN_SQUARE: byte := 91
  const QUESTION_MARK: byte := 63
  const TWO_31 := 0x8000_0000

  datatype Item =
    | Text(c: byte)
    | Escaped(c: byte)
    | Charset(c: byte)
    | Control(params: seq<int>, c: byte)
    | Private(params: seq<int>, c: byte)

  datatype State = Plain | Escape | Bracket | SquareBracket | Question

  /** m_state, m_params, m_firstNumber and the items recognised so far. */
  datatype Parser = Parser(state: State, params: seq<int>, first: bool, items: seq<Item>)

  /** A number is under construction only when there is one to add a digit to. */
  ghost predicate ParserOk(p: Parser) {
    && (p.state == Escape ==> p.first && p.params == [])
    && (p.state == SquareBracket || p.state == Question ==> p.first || p.params != [])
  }

  predicate IsDigit(c: byte) {
    ZERO <= c <= NINE
  }

  /** A value kept in 32 bits, two's complement. */
  function Wrap(n: int): int {
    (n + TWO_31) % TWO_32 - TWO_31
  }

  function AddDigit(p: Parser, c: byte): Parser
    requires p.first || p.params != []
  {
    var d := c as int - ZERO as int;
    if p.first then p.(params := p.params + [d], first := false)
    else p.(params := p.params[|p.params| - 1 := Wrap(10 * p.params[|p.params| - 1] + d)])
  }

  function Recognise(p: Parser, item: Item): Parser {
    p.(state := Plain, items := p.items + [item])
  }

  function Step(p: Parser, c: byte): (q: Parser)
    requires ParserOk(p)
    ensures ParserOk(q)
  {
    match p.state
    case Plain => if c == ESC then Parser(Escape, [], true, p.items) else Recognise(p, Text(c))
    case Escape =>
      if c == OPEN_ROUND then p.(state := Bracket)
      else if c == OPEN_SQUARE then p.(state := SquareBracket)
      else Recognise(p, Escaped(c))
    case Bracket => Recognise(p, Charset(c))
    case SquareBracket =>
      if IsDigit(c) then AddDigit(p, c)
      else if c == SEMICOLON then p.(first := true)
      else if c == QUESTION_MARK then p.(state := Question)
      else Recognise(p, Control(p.params, c))
    case Question =>
      if IsDigit(c) then AddDigit(p, c) else Recognise(p, Private(p.params, c))
  }

  /** The first i bytes of a stream. */
  ghost function Feed(p: Parser, s: seq<byte>, i: nat): (q: Parser)
    requires ParserOk(p) && i <= |s|
    ensures ParserOk(q)
    decreases i
  {
    if i == 0 then p else Step(Feed(p, s, i - 1), s[i - 1])
  }

  ghost function FeedAll(p: Parser, s: seq<byte>): (q: Parser)
    requires ParserOk(p)
    ensures ParserOk(q)
  {
    Feed(p, s, |s|)
  }

  lemma {:induction false} FeedPrefix(p: Parser, s: seq<byte>, t: seq<byte>, i: nat)
    requires ParserOk(p) && i <= |s|
    ensures Feed(p, s + t, i) == Feed(p, s, i)
    decreases i
  {
    hide Step;
    if i > 0 {
      FeedPrefix(p, s, t, i - 1);
    }
  }

  lemma {:induction false} FeedSuffix(p: Parser, s: seq<byte>, t: seq<byte>, i: nat)
    requires ParserOk(p) && i <= |t|
    ensures Feed(p, s + t, |s| + i) == Feed(FeedAll(p, s), t, i)
    decreases i
  {
    hide Step;
    if i == 0 {
      FeedPrefix(p, s, t, |s|);
    } else {
      FeedSuffix(p, s, t, i - 1);
    }
  }

  /** However a stream is cut, the parser ends in the same state. */
  lemma FeedSplit(p: Parser, s: seq<byte>, t: seq<byte>)
    requires ParserOk(p)
    ensures FeedAll(p, s + t) == FeedAll(FeedAll(p, s), t)
  {
    hide Step, Feed;
    FeedSuffix(p, s, t, |t|);
  }

  lemma FeedOne(p: Parser, c: byte)
    requires ParserOk(p)
    ensures FeedAll(p, [c]) == Step(p, c)
  {
    hide Step;
    assert Feed(p, [c], 0) == p;
  }

  /** What has been recognised stays recognised. */
  lemma {:induction false} ItemsGrow(p: Parser, s: seq<byte>, i: nat)
    requires ParserOk(p) && i <= |s|
    ensures p.items <= Feed(p, s, i).items
    decreases i
  {
    if i > 0 {
      ItemsGrow(p, s, i - 1);
      StepItems(Feed(p, s, i - 1), s[i - 1]);
    }
  }

  lemma StepItems(p: Parser, c: byte)
    requires ParserOk(p)
    ensures p.items <= Step(p, c).items
  {
  }

  /** A byte and then the rest. */
  lemma FeedFirst(p: Parser, c: byte, t: seq<byte>)
    requires ParserOk(p)
    ensures FeedAll(p, [c] + t) == FeedAll(Step(p, c), t)
  {
    hide Step, FeedAll;
    FeedSplit(p, [c], t);
    FeedOne(p, c);
  }

  // ---------------------------------------------------------------------------------------
  // The parser as an object

  class TerminalParser {
    var state: State
    var params: seq<int>
    var firstNumber: bool
    var items: seq<Item>

    ghost function Value(): Parser
      reads this
    {
      Parser(state, params, firstNumber, items)
    }

    constructor ()
      ensures Value() == Parser(Plain, [], true, [])
    {
      state, params, firstNumber, items := Plain, [], true, [];
    }

    method HandleData(data: seq<byte>)
      requires ParserOk(Value())
      modifies this
      ensures ParserOk(Value()) && Value() == FeedAll(old(Value()), data)
    {
      hide Step, ParserOk;
      for i := 0 to |data|
        invariant ParserOk(Value()) && Value() == Feed(old(Value()), data, i)
      {
        ghost var before := Value();
        match state
        case Plain => HandleNone(data[i]);
        case Escape => HandleEscape(data[i]);
        case Bracket => HandleBracket(data[i]);
        case SquareBracket => HandleSquareBracket(data[i]);
        case Question => HandleQuestion(data[i]);
        assert Value() == Step(before, data[i]);
      }
    }

    method Emit(item: Item)
      modifies this
      ensures Value() == Recognise(old(Value()), item)
    {
      items := items + [item];
      state := Plain;
    }

    method HandleNone(c: byte)
      requires ParserOk(Value()) && state == Plain
      modifies this
      ensures Value() == Step(old(Value()), c)
    {
      if c == ESC {
        state := Escape;
        params := [];
        firstNumber := true;
      } else {
        Emit(Text(c));
      }
    }

    method HandleEscape(c: byte)
      requires ParserOk(Value()) && state == Escape
      modifies this
      ensures Value() == Step(old(Value()), c)
    {
      if c == OPEN_ROUND {
        state := Bracket;
      } else if c == OPEN_SQUARE {
        state := SquareBracket;
      } else {
        Emit(Escaped(c));
      }
    }

    method HandleBracket(c: byte)
      requires ParserOk(Value()) && state == Bracket
      modifies this
      ensures Value() == Step(old(Value()), c)
    {
      Emit(Charset(c));
    }

    method Digit(c: byte)
      requires IsDigit(c) && (firstNumber || params != [])
      modifies this`params, this`firstNumber
      ensures Value() == AddDigit(old(Value()), c)
    {
      var d := c as int - ZERO as int;
      if firstNumber {
        params := params + [d];
        firstNumber := false;
      } else {
        params := params[|params| - 1 := Wrap(10 * params[|params| - 1] + d)];
      }
    }

    method HandleSquareBracket(c: byte)
      requires ParserOk(Value()) && state == SquareBracket
      modifies this
      ensures Value() == Step(old(Value()), c)
    {
      if IsDigit(c) {
        Digit(c);
      } else if c == SEMICOLON {
        firstNumber := true;
      } else if c == QUESTION_MARK {
        state := Question;
      } else {
        Emit(Control(params, c));
      }
    }

    method HandleQuestion(c: byte)
      requires ParserOk(Value()) && state == Question
      modifies this
      ensures Value() == Step(old(Value()), c)
    {
      if IsDigit(c) {
        Digit(c);
      } else {
        Emit(Private(params, c));
      }
    }
  }

  // ---------------------------------------------------------------------------------------
  // What a string of digits and semicolons leaves in the parameters

  ghost predicate Digits(f: seq<byte>) {
    forall i :: 0 <= i < |f| ==> IsDigit(f[i])
  }

  ghost predicate AllDigits(fields: seq<seq<byte>>) {
    forall i :: 0 <= i < |fields| ==> Digits(fields[i])
  }

  /** The number that the first i digits spell. */
  ghost function Number(f: seq<byte>, i: nat): int
    requires i <= |f|
  {
    if i == 0 then 0 else 10 * Number(f, i - 1) + (f[i - 1] as int - ZERO as int)
  }

  /** Fields, each after a semicolon. */
  ghost function Joined(fields: seq<seq<byte>>, i: nat): seq<byte>
    requires i <= |fields|
  {
    if i == 0 then [] else Joined(fields, i - 1) + ([SEMICOLON] + fields[i - 1])
  }

  /** The numbers of the fields that are not empty. */
  ghost function Kept(fields: seq<seq<byte>>, i: nat): seq<int>
    requires i <= |fields|
  {
    if i == 0 then []
    else if fields[i - 1] == [] then Kept(fields, i - 1)
    else Kept(fields, i - 1) + [Wrap(Number(fields[i - 1], |fields[i - 1]|))]
  }

  /** Wrapping gives the number of 32 bits, two's complement, that differs by a multiple of 2^32. */
  lemma WrapLaw(n: int)
    ensures -TWO_31 <= Wrap(n) < TWO_31 && (n - Wrap(n)) % TWO_32 == 0
    ensures -TWO_31 <= n < TWO_31 ==> Wrap(n) == n
  {
    var k := (n + TWO_31) / TWO_32;
    assert n - Wrap(n) == k * TWO_32;
  }

  lemma WrapStep(v: int, d: int)
    ensures Wrap(10 * Wrap(v) + d) == Wrap(10 * v + d)
  {
    var k := (v + TWO_31) / TWO_32;
    assert Wrap(v) == v - k * TWO_32;
    assert 10 * Wrap(v) + d == 10 * v + d - (10 * k) * TWO_32;
  }

  ghost predicate Collects(p: Parser) {
    p.state == SquareBracket || p.state == Question
  }

  /** A run of digits adds one parameter. */
  lemma {:induction false} DigitsFeed(p: Parser, f: seq<byte>, i: nat)
    requires ParserOk(p) && Collects(p) && p.first && Digits(f) && 0 < i <= |f|
    ensures Feed(p, f, i) == p.(params := p.params + [Wrap(Number(f, i))], first := false)
    decreases i
  {
    assert IsDigit(f[i - 1]);
    var d := f[i - 1] as int - ZERO as int;
    if i == 1 {
      assert Feed(p, f, 0) == p;
      assert Number(f, 0) == 0;
    } else {
      DigitsFeed(p, f, i - 1);
      var v := Number(f, i - 1);
      WrapStep(v, d);
      var q := Feed(p, f, i - 1);
      assert q.params[|q.params| - 1 := Wrap(10 * v + d)] == p.params + [Wrap(10 * v + d)];
    }
  }

  /** Every field that is not empty gives one parameter, in order; empty fields give none. */
  lemma {:induction false} FieldsFeed(p: Parser, fields: seq<seq<byte>>, i: nat)
    requires ParserOk(p) && p.state == SquareBracket && AllDigits(fields) && 0 < i <= |fields|
    ensures FeedAll(p, Joined(fields, i))
         == p.(params := p.params + Kept(fields, i), first := fields[i - 1] == [])
    decreases i
  {
    hide FeedAll, Feed, Number, Wrap;
    var f := fields[i - 1];
    var q := p;
    if i > 1 {
      FieldsFeed(p, fields, i - 1);
      q := FeedAll(p, Joined(fields, i - 1));
    } else {
      FeedNothing(p);
      assert Joined(fields, 0) == [] && Kept(fields, 0) == [];
    }
    FeedSplit(p, Joined(fields, i - 1), [SEMICOLON] + f);
    FeedFirst(q, SEMICOLON, f);
    var r := Step(q, SEMICOLON);
    FieldFeed(r, f);
  }

  lemma FeedNothing(p: Parser)
    requires ParserOk(p)
    ensures FeedAll(p, []) == p
  {
  }

  lemma FieldFeed(p: Parser, f: seq<byte>)
    requires ParserOk(p) && Collects(p) && p.first && Digits(f)
    ensures f == [] ==> FeedAll(p, f) == p
    ensures f != [] ==> FeedAll(p, f) == p.(params := p.params + [Wrap(Number(f, |f|))], first := false)
  {
    hide Number, Wrap, Step;
    if f != [] {
      DigitsFeed(p, f, |f|);
    }
  }

  /** The bytes between ESC [ and the final byte: fields between semicolons. */
  ghost function ParameterBytes(fields: seq<seq<byte>>): seq<byte>
    requires fields != []
  {
    Joined(fields, |fields|)[1..]
  }

  lemma JoinedStart(fields: seq<seq<byte>>, i: nat)
    requires 0 < i <= |fields|
    ensures Joined(fields, i) != [] && Joined(fields, i)[0] == SEMICOLON
  {
    if i == 1 {
      assert Joined(fields, 0) == [];
    } else {
      JoinedStart(fields, i - 1);
    }
  }

  /** ESC [ opens an empty parameter list. */
  lemma OpenControl(p: Parser, rest: seq<byte>)
    requires p.state == Plain
    ensures FeedAll(p, [ESC] + ([OPEN_SQUARE] + rest)) == FeedAll(Parser(SquareBracket, [], true, p.items), rest)
  {
    hide FeedAll;
    FeedFirst(p, ESC, [OPEN_SQUARE] + rest);
    FeedFirst(Parser(Escape, [], true, p.items), OPEN_SQUARE, rest);
  }

  lemma ParametersExact(p: Parser, fields: seq<seq<byte>>)
    requires p.state == SquareBracket && p.first && fields != [] && AllDigits(fields)
    ensures FeedAll(p, ParameterBytes(fields))
         == p.(params := p.params + Kept(fields, |fields|), first := fields[|fields| - 1] == [])
  {
    hide FeedAll, Kept, Joined;
    JoinedStart(fields, |fields|);
    assert Joined(fields, |fields|) == [SEMICOLON] + ParameterBytes(fields);
    FeedFirst(p, SEMICOLON, ParameterBytes(fields));
    assert Step(p, SEMICOLON) == p;
    FieldsFeed(p, fields, |fields|);
  }

  /** The parameters that an arbitrary control sequence delivers. */
  lemma ControlExact(p: Parser, fields: seq<seq<byte>>, c: byte)
    requires p.state == Plain && fields != [] && AllDigits(fields)
    requires !IsDigit(c) && c != SEMICOLON && c != QUESTION_MARK
    ensures FeedAll(p, [ESC] + ([OPEN_SQUARE] + (ParameterBytes(fields) + [c]))).items
         == p.items + [Control(Kept(fields, |fields|), c)]
    ensures FeedAll(p, [ESC] + ([OPEN_SQUARE] + (ParameterBytes(fields) + [c]))).state == Plain
  {
    hide FeedAll, Kept, ParameterBytes;
    var body := ParameterBytes(fields);
    var start := Parser(SquareBracket, [], true, p.items);
    OpenControl(p, body + [c]);
    FeedSplit(start, body, [c]);
    ParametersExact(start, fields);
    FeedOne(FeedAll(start, body), c);
    assert [] + Kept(fields, |fields|) == Kept(fields, |fields|);
  }

  /** ECMA-48 reads an empty field as a parameter with its default value. The parser delivers
      one parameter a field exactly when no field is empty. */
  lemma {:induction false} EmptyFieldsVanish(fields: seq<seq<byte>>, i: nat)
    requires i <= |fields|
    ensures |Kept(fields, i)| <= i
    ensures |Kept(fields, i)| == i <==> forall j :: 0 <= j < i ==> fields[j] != []
    decreases i
  {
    if i > 0 {
      EmptyFieldsVanish(fields, i - 1);
    }
  }

  /** ESC [ ; 5 H: the second field is taken for the first. */
  lemma EmptyFieldShifts(p: Parser)
    requires p.state == Plain
    ensures FeedAll(p, [ESC] + ([OPEN_SQUARE] + (ParameterBytes([[], [53]]) + [72]))).items
         == p.items + [Control([5], 72)]
  {
    hide FeedAll;
    var five: seq<byte> := [53];
    var fields := [[], five];
    ControlExact(p, fields, 72);
    assert Number(five, 0) == 0 && Number(five, 1) == 5;
    assert Kept(fields, 0) == [] && Kept(fields, 1) == [];
    assert Kept(fields, 2) == [Wrap(Number(fields[1], |fields[1]|))];
  }

  /** The bytes 1b 5b 31 32 3b 33 48, ESC [ 1 2 ; 3 H: cursor to row 12, column 3. */
  lemma SampleSequence(p: Parser, bytes: seq<byte>)
    requires p.state == Plain && bytes == [0x1b, 0x5b, 0x31, 0x32, 0x3b, 0x33, 0x48]
    ensures FeedAll(p, bytes).state == Plain
    ensures FeedAll(p, bytes).items == p.items + [Control([12, 3], 0x48)]
  {
    assert Feed(p, bytes, 0) == p;
    assert Feed(p, bytes, 1) == Parser(Escape, [], true, p.items);
    assert Feed(p, bytes, 2) == Parser(SquareBracket, [], true, p.items);
    assert Feed(p, bytes, 3) == Parser(SquareBracket, [1], false, p.items);
    assert Feed(p, bytes, 4) == Parser(SquareBracket, [12], false, p.items);
    assert Feed(p, bytes, 5) == Parser(SquareBracket, [12], true, p.items);
    assert Feed(p, bytes, 6) == Parser(SquareBracket, [12, 3], false, p.items);
  }

  // ---------------------------------------------------------------------------------------
  // Writing items out and parsing them

  ghost function Decimal(n: nat): (f: seq<byte>)
    ensures f != [] && Digits(f)
  {
    if n < 10 then [(ZERO as int + n) as byte] else Decimal(n / 10) + [(ZERO as int + n % 10) as byte]
  }

  lemma {:induction false} NumberPrefix(f: seq<byte>, g: seq<byte>, i: nat)
    requires i <= |f|
    ensures Number(f + g, i) == Number(f, i)
    decreases i
  {
    if i > 0 {
      NumberPrefix(f, g, i - 1);
    }
  }

  lemma {:induction false} DecimalRoundTrip(n: nat)
    ensures Number(Decimal(n), |Decimal(n)|) == n
  {
    if n < 10 {
      assert Number(Decimal(n), 0) == 0;
    } else {
      DecimalRoundTrip(n / 10);
      NumberPrefix(Decimal(n / 10), [(ZERO as int + n % 10) as byte], |Decimal(n / 10)|);
    }
  }

  ghost function Decimals(params: seq<int>): (fields: seq<seq<byte>>)
    requires ParamsOk(params)
    ensures |fields| == |params| && AllDigits(fields)
    ensures forall i :: 0 <= i < |fields| ==> fields[i] == Decimal(params[i])
  {
    seq(|params|, i requires 0 <= i < |params| => Decimal(params[i]))
  }

  ghost predicate ParamsOk(params: seq<int>) {
    forall i :: 0 <= i < |params| ==> 0 <= params[i] < TWO_31
  }

  lemma {:induction false} DecimalsKept(params: seq<int>, i: nat)
    requires ParamsOk(params) && i <= |params|
    ensures Kept(Decimals(params), i) == params[..i]
    decreases i
  {
    hide Number, Decimal;
    if i > 0 {
      DecimalsKept(params, i - 1);
      DecimalRoundTrip(params[i - 1]);
      assert params[..i] == params[..i - 1] + [params[i - 1]];
    }
  }

  /** Items that a sender can write. */
  ghost predicate ItemOk(item: Item) {
    match item
    case Text(c) => c != ESC
    case Escaped(c) => c != OPEN_ROUND && c != OPEN_SQUARE
    case Charset(_) => true
    case Control(params, c) => ParamsOk(params) && !IsDigit(c) && c != SEMICOLON && c != QUESTION_MARK
    case Private(params, c) => ParamsOk(params) && |params| <= 1 && !IsDigit(c)
  }

  ghost function Encode(item: Item): seq<byte>
    requires ItemOk(item)
  {
    match item
    case Text(c) => [c]
    case Escaped(c) => [ESC] + [c]
    case Charset(c) => [ESC] + ([OPEN_ROUND] + [c])
    case Control(params, c) =>
      [ESC] + ([OPEN_SQUARE] + ((if params == [] then [] else ParameterBytes(Decimals(params))) + [c]))
    case Private(params, c) =>
      [ESC] + ([OPEN_SQUARE] + ([QUESTION_MARK] + ((if params == [] then [] else Decimal(params[0])) + [c])))
  }

  ghost predicate ItemsOk(items: seq<Item>) {
    forall i :: 0 <= i < |items| ==> ItemOk(items[i])
  }

  ghost function EncodeAll(items: seq<Item>, i: nat): seq<byte>
    requires i <= |items| && ItemsOk(items)
  {
    if i == 0 then [] else EncodeAll(items, i - 1) + Encode(items[i - 1])
  }

  lemma ControlRoundTrip(p: Parser, params: seq<int>, c: byte)
    requires p.state == Plain && ItemOk(Control(params, c))
    ensures var q := FeedAll(p, Encode(Control(params, c)));
            q.state == Plain && q.items == p.items + [Control(params, c)]
  {
    hide FeedAll, Kept;
    if params == [] {
      OpenControl(p, [] + [c]);
      assert [] + [c] == [c];
      FeedOne(Parser(SquareBracket, [], true, p.items), c);
    } else {
      ControlExact(p, Decimals(params), c);
      DecimalsKept(params, |params|);
      assert params[..|params|] == params;
    }
  }

  lemma PrivateRoundTrip(p: Parser, params: seq<int>, c: byte)
    requires p.state == Plain && ItemOk(Private(params, c))
    ensures var q := FeedAll(p, Encode(Private(params, c)));
            q.state == Plain && q.items == p.items + [Private(params, c)]
  {
    hide FeedAll, Number, Decimal;
    var body := if params == [] then [] else Decimal(params[0]);
    OpenControl(p, [QUESTION_MARK] + (body + [c]));
    FeedFirst(Parser(SquareBracket, [], true, p.items), QUESTION_MARK, body + [c]);
    var start := Parser(Question, [], true, p.items);
    FeedSplit(start, body, [c]);
    FieldFeed(start, body);
    FeedOne(FeedAll(start, body), c);
    if params != [] {
      DecimalRoundTrip(params[0]);
      assert [] + [params[0]] == params;
    }
  }

  lemma ItemRoundTrip(p: Parser, item: Item)
    requires p.state == Plain && ItemOk(item)
    ensures var q := FeedAll(p, Encode(item)); q.state == Plain && q.items == p.items + [item]
  {
    hide FeedAll;
    match item
    case Text(c) => FeedOne(p, c);
    case Escaped(c) =>
      FeedFirst(p, ESC, [c]);
      FeedOne(Parser(Escape, [], true, p.items), c);
    case Charset(c) =>
      FeedFirst(p, ESC, [OPEN_ROUND] + [c]);
      FeedFirst(Parser(Escape, [], true, p.items), OPEN_ROUND, [c]);
      FeedOne(Parser(Bracket, [], true, p.items), c);
    case Control(params, c) => ControlRoundTrip(p, params, c);
    case Private(params, c) => PrivateRoundTrip(p, params, c);
  }

  /** Any stream of items comes back as it was written. */
  lemma {:induction false} StreamRoundTrip(p: Parser, items: seq<Item>, i: nat)
    requires p.state == Plain && ItemsOk(items) && i <= |items|
    ensures FeedAll(p, EncodeAll(items, i)).state == Plain
    ensures FeedAll(p, EncodeAll(items, i)).items == p.items + items[..i]
    decreases i
  {
    hide FeedAll, Encode, ItemOk;
    if i == 0 {
      FeedNothing(p);
    } else {
      StreamRoundTrip(p, items, i - 1);
      FeedSplit(p, EncodeAll(items, i - 1), Encode(items[i - 1]));
      ItemRoundTrip(FeedAll(p, EncodeAll(items, i - 1)), items[i - 1]);
      assert items[..i] == items[..i - 1] + [items[i - 1]];
    }
  }

  /** The first i pieces of a stream, put together. */
  ghost function Together(pieces: seq<seq<byte>>, i: nat): seq<byte>
    requires i <= |pieces|
  {
    if i == 0 then [] else Together(pieces, i - 1) + pieces[i - 1]
  }

  /** However an encoded stream is cut into reads, its items are delivered. */
  method ParsePieces(pieces: seq<seq<byte>>, ghost sent: seq<Item>) returns (items: seq<Item>)
    requires ItemsOk(sent) && Together(pieces, |pieces|) == EncodeAll(sent, |sent|)
    ensures items == sent
  {
    hide FeedAll, EncodeAll;
    var parser := new TerminalParser();
    ghost var start := parser.Value();
    FeedNothing(start);
    for i := 0 to |pieces|
      invariant ParserOk(parser.Value()) && parser.Value() == FeedAll(start, Together(pieces, i))
    {
      parser.HandleData(pieces[i]);
      FeedSplit(start, Together(pieces, i), pieces[i]);
    }
    StreamRoundTrip(start, sent, |sent|);
    assert [] + sent[..|sent|] == sent;
    items := parser.items;
  }
}
