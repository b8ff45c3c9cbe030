/** The terminal as two stacks of lines around a screen, and the append-only transcript it is a window on. */
module Scrollback {

  const ROWS := 23
  const HISTORY := 1024
  const START := 160
  const BOTTOM := 2000

  type Cell = x: int | 0 <= x < 0x1_0000
  type Color = x: int | 0 <= x < 16
  type Char = x: int | 0 <= x < 256
  type Line = l: seq<Cell> | |l| == 80 witness seq(80, _ => 0)

  /** vga_entry */
  function Entry(c: Char, fg: Color, bg: Color): Cell { c + 256 * (16 * bg + fg) }

  const BLANK_CELL: Cell := Entry(0, 15, 0)

  function BlankLine(): (l: Line)
    ensures forall i :: 0 <= i < 80 ==> l[i] == BLANK_CELL
  {
    seq(80, _ => BLANK_CELL)
  }

  function BlankLines(n: nat): (s: seq<Line>)
    ensures |s| == n && forall i :: 0 <= i < n ==> s[i] == BlankLine()
  {
    if n == 0 then [] else BlankLines(n - 1) + [BlankLine()]
  }

  type Screen = s: seq<Line> | |s| == 23 witness BlankLines(23)

  /** The two header rows, the lines above, on and below the screen (the last of bottom is nearest), and the cursor. */
  datatype View = View(header: seq<Cell>, top: seq<Line>, screen: Screen, bottom: seq<Line>, cursor: Cell)

  // ---------------------------------------------------------------------
  // The operations

  function Push(t: seq<Line>, l: Line): (r: seq<Line>)
    ensures |r| == if |t| < HISTORY then |t| + 1 else |t|
  {
    if |t| < HISTORY then t + [l] else t[1..] + [l]
  }

  /** terminal_auto_scroll */
  function AutoScroll(v: View): View {
    v.(top := Push(v.top, v.screen[0]), bottom := [], screen := v.screen[1..] + [BlankLine()])
  }

  /** scroll_up: one line back in time. */
  function ScrollUp(v: View): View {
    if v.top == [] then v
    else v.(bottom := if |v.bottom| < HISTORY then v.bottom + [v.screen[22]] else v.bottom,
            screen := [v.top[|v.top| - 1]] + v.screen[..22],
            top := v.top[..|v.top| - 1])
  }

  /** scroll_down: one line forward. */
  function ScrollDown(v: View): View {
    if v.bottom == [] then v
    else v.(top := v.top + [v.screen[0]],
            screen := v.screen[1..] + [v.bottom[|v.bottom| - 1]],
            bottom := v.bottom[..|v.bottom| - 1])
  }

  /** return_to_present */
  function Present(v: View): (r: View)
    ensures r.bottom == [] && r.header == v.header && r.cursor == v.cursor
    decreases |v.bottom|
  {
    if v.bottom == [] then v else Present(ScrollDown(v))
  }

  function SetCell(s: Screen, p: nat, e: Cell): Screen
    requires START <= p < BOTTOM
  {
    s[p / 80 - 2 := s[p / 80 - 2][p % 80 := e]]
  }

  /** putchar_color up to its overflow test: the screen and where the cursor goes. */
  function Type(s: Screen, cursor: Cell, c: Char, fg: Color, bg: Color): (r: (Screen, nat))
    ensures START <= r.1 <= BOTTOM
  {
    var p := if cursor >= BOTTOM || cursor < START then START else cursor;
    if c == 10 then (s, (p / 80 + 1) * 80)
    else if c == 13 then (s, p / 80 * 80)
    else if c == 9 then (s, if p + (8 - p % 80 % 8) >= BOTTOM then BOTTOM - 80 else p + (8 - p % 80 % 8))
    else (SetCell(s, p, Entry(c, fg, bg)), p + 1)
  }

  /**
   * What a character means for the cursor and the cells; a cursor off the screen starts at the first cell under the
   * header.
   */
  lemma TypeMeans(s: Screen, cursor: Cell, c: Char, fg: Color, bg: Color)
    ensures var (t, q) := Type(s, cursor, c, fg, bg); var p := if START <= cursor < BOTTOM then cursor else START;
            if c == 10 then t == s && q % 80 == 0 && p < q <= p + 80
            else if c == 13 then t == s && q % 80 == 0 && q <= p < q + 80
            else if c == 9 then t == s
                && (if q > p then q % 8 == 0 && q <= p + 8 else p + 8 >= BOTTOM && q == BOTTOM - 80)
            else q == p + 1 && t[p / 80 - 2][p % 80] == Entry(c, fg, bg)
                 && (forall i, j :: 0 <= i < 23 && 0 <= j < 80 && (i, j) != (p / 80 - 2, p % 80) ==> t[i][j] == s[i][j])
  {
    var p := if START <= cursor < BOTTOM then cursor else START;
    assert p % 80 % 8 == p % 8 by { assert p == 80 * (p / 80) + p % 80; }
  }

  /** putchar_color */
  function Put(v: View, c: Char, fg: Color, bg: Color): View {
    var (s, p) := Type(v.screen, v.cursor, c, fg, bg);
    if p >= BOTTOM then AutoScroll(v.(screen := s)).(cursor := BOTTOM - 80) else v.(screen := s, cursor := p)
  }

  // ---------------------------------------------------------------------
  // The zipper

  function Rev(s: seq<Line>): (r: seq<Line>)
    ensures |r| == |s|
  {
    if s == [] then [] else [s[|s| - 1]] + Rev(s[..|s| - 1])
  }

  /** All lines kept, oldest first. */
  function Zip(v: View): seq<Line> { v.top + v.screen + Rev(v.bottom) }

  /** The buffers together never hold more lines than either has room for. */
  predicate Room(v: View) { |v.top| + |v.bottom| <= HISTORY && |v.header| == START }

  lemma RevPush(s: seq<Line>, l: Line)
    ensures Rev(s + [l]) == [l] + Rev(s)
  {
    assert (s + [l])[..|s|] == s;
  }

  /** Scrolling back loses nothing: the buffer below has room whenever there is a line above. */
  lemma ScrollUpZip(v: View)
    requires Room(v)
    ensures Room(ScrollUp(v)) && Zip(ScrollUp(v)) == Zip(v)
  {
    if v.top != [] {
      RevPush(v.bottom, v.screen[22]);
      assert v.top == v.top[..|v.top| - 1] + [v.top[|v.top| - 1]];
      assert v.screen == v.screen[..22] + [v.screen[22]];
    }
  }

  /** Scrolling forward loses nothing either, and writes the upper buffer within its bounds. */
  lemma ScrollDownZip(v: View)
    requires Room(v)
    ensures Room(ScrollDown(v)) && Zip(ScrollDown(v)) == Zip(v)
    ensures v.bottom != [] ==> |v.top| < HISTORY
  {
    if v.bottom != [] {
      assert v.screen == [v.screen[0]] + v.screen[1..];
    }
  }

  lemma {:induction false} PresentZip(v: View)
    requires Room(v)
    ensures var r := Present(v);
            Room(r) && Zip(r) == Zip(v) && r.top + r.screen == Zip(v)
    decreases |v.bottom|
  {
    if v.bottom != [] {
      ScrollDownZip(v);
      PresentZip(ScrollDown(v));
    } else {
      assert v.top + v.screen + [] == v.top + v.screen;
    }
  }

  /** A view at the present is determined by its lines. */
  lemma SameZip(v: View, w: View)
    requires v.bottom == [] && w.bottom == [] && Zip(v) == Zip(w) && v.header == w.header && v.cursor == w.cursor
    ensures v == w
  {
    assert |Zip(v)| == |v.top| + 23 && |Zip(w)| == |w.top| + 23;
    assert v.top == Zip(v)[..|v.top|] && w.top == Zip(w)[..|w.top|];
    assert v.screen == Zip(v)[|v.top|..|v.top| + 23] && w.screen == Zip(w)[|w.top|..|w.top| + 23];
  }

  datatype Scroll = Up | Down | Back

  function Scrolled(v: View, ops: seq<Scroll>): View
    decreases |ops|
  {
    if ops == [] then v
    else Scrolled(match ops[0] case Up => ScrollUp(v) case Down => ScrollDown(v) case Back => Present(v), ops[1..])
  }

  /** No mix of scrolling loses or changes a line. */
  lemma {:induction false} ScrolledZip(v: View, ops: seq<Scroll>)
    requires Room(v)
    ensures var r := Scrolled(v, ops); Room(r) && Zip(r) == Zip(v) && r.header == v.header && r.cursor == v.cursor
    decreases |ops|
  {
    if ops != [] {
      match ops[0] {
        case Up => ScrollUpZip(v); ScrolledZip(ScrollUp(v), ops[1..]);
        case Down => ScrollDownZip(v); ScrolledZip(ScrollDown(v), ops[1..]);
        case Back => PresentZip(v); ScrolledZip(Present(v), ops[1..]);
      }
    }
  }

  /** However the user scrolled, typing finds the screen and the history as they were. */
  lemma ReturnRestores(v: View, ops: seq<Scroll>)
    requires Room(v) && v.bottom == []
    ensures Present(Scrolled(v, ops)) == v
  {
    ScrolledZip(v, ops);
    PresentZip(Scrolled(v, ops));
    SameZip(Present(Scrolled(v, ops)), v);
  }

  // ---------------------------------------------------------------------
  // The transcript

  /** What was ever printed: the lines that left the screen, all of them, and the screen at the present. */
  datatype Log = Log(gone: seq<Line>, screen: Screen, cursor: Cell)

  function LogPut(g: Log, c: Char, fg: Color, bg: Color): Log {
    var (s, p) := Type(g.screen, g.cursor, c, fg, bg);
    if p >= BOTTOM then Log(g.gone + [s[0]], s[1..] + [BlankLine()], BOTTOM - 80) else g.(screen := s, cursor := p)
  }

  /** The last lines that a history of this size can hold. */
  function Kept(gone: seq<Line>): (r: seq<Line>)
    ensures |r| == if |gone| < HISTORY then |gone| else HISTORY
  {
    if |gone| <= HISTORY then gone else gone[|gone| - HISTORY..]
  }

  lemma KeptPush(gone: seq<Line>, l: Line)
    ensures Kept(gone + [l]) == Push(Kept(gone), l)
  {
  }

  /** The view is a window on the transcript: its lines are the last ones. */
  predicate Shows(v: View, g: Log) {
    Room(v) && Zip(v) == Kept(g.gone) + g.screen && v.cursor == g.cursor
  }

  /** At the present the window is the end of the transcript itself. */
  lemma ShowsPresent(v: View, g: Log)
    requires Shows(v, g) && v.bottom == []
    ensures v.top == Kept(g.gone) && v.screen == g.screen
  {
    SameZip(v, View(v.header, Kept(g.gone), g.screen, [], v.cursor));
    assert Kept(g.gone) + g.screen + [] == Kept(g.gone) + g.screen;
  }

  /** Output at the present extends both alike, and leaves the header rows alone. */
  lemma PutShows(v: View, g: Log, c: Char, fg: Color, bg: Color)
    requires Shows(v, g) && v.bottom == []
    ensures var r := Put(v, c, fg, bg); Shows(r, LogPut(g, c, fg, bg)) && r.bottom == [] && r.header == v.header
  {
    ShowsPresent(v, g);
    var (s, p) := Type(g.screen, g.cursor, c, fg, bg);
    KeptPush(g.gone, s[0]);
    var r := Put(v, c, fg, bg);
    assert r.top + r.screen + [] == r.top + r.screen;
  }

  /** Output that scrolls while the user looks at the past would lose exactly the lines below the screen. */
  lemma AutoScrollZip(v: View)
    requires Room(v)
    ensures var r := AutoScroll(v);
            Room(r) && Zip(r) == (if |v.top| < HISTORY then v.top else v.top[1..]) + v.screen + [BlankLine()]
    ensures |v.top| < HISTORY ==> (Zip(AutoScroll(v)) == Zip(v) + [BlankLine()] <==> v.bottom == [])
  {
    var r := AutoScroll(v);
    assert v.screen == [v.screen[0]] + v.screen[1..];
    var t := if |v.top| < HISTORY then v.top else v.top[1..];
    assert r.top == t + [v.screen[0]];
    assert Zip(r) == t + v.screen + [BlankLine()];
    assert |Zip(v)| == |v.top| + 23 + |v.bottom|;
    if v.bottom == [] { assert Zip(v) == v.top + v.screen; }
  }

  // ---------------------------------------------------------------------
  // The console

  const INPUT_SIZE := 256
  const INPUT_FG: Color := 7

  /** A character put on the screen, or the cursor put somewhere. */
  datatype Act = Show(c: Char, fg: Color) | Seek(p: Cell)

  const PROMPT: seq<Act> := [Show(62, 10), Show(32, 10)]

  /** One turn: nothing, a scroll key, or a typed character with all that running its command prints. */
  datatype Event = Idle | PageUp | PageDown | Key(c: Char, response: seq<Char>)

  /** The input line so far, and whether the prompt is out. */
  datatype Input = Input(text: seq<Char>, prompt: bool)

  function ShowAll(cs: seq<Char>): (r: seq<Act>)
    ensures |r| == |cs|
  {
    seq(|cs|, i requires 0 <= i < |cs| => Show(cs[i], INPUT_FG))
  }

  function Spaces(n: nat): (r: seq<Char>)
    ensures |r| == n
  {
    seq(n, _ => 32)
  }

  /** Spaces typed for a tab: to the next of every fourth column, as far as the line has room. */
  function TabSpaces(text: seq<Char>, cursor: Cell): (n: nat) {
    var free := INPUT_SIZE - 1 - |text|;
    if free <= 0 then 0 else if 4 - cursor % 80 % 4 > free then free else 4 - cursor % 80 % 4
  }

  /** What a typed character puts on the screen. */
  function Echo(text: seq<Char>, cursor: Cell, c: Char, response: seq<Char>): seq<Act> {
    if c == 10 || c == 13 then [Show(10, INPUT_FG)] + ShowAll(if text == [] then [] else response) + PROMPT
    else if c == 8 || c == 127 then
      if text == [] || cursor == 0 then [] else [Seek(cursor - 1), Show(32, INPUT_FG), Seek(cursor - 1)]
    else if c == 9 then ShowAll(Spaces(TabSpaces(text, cursor)))
    else if 32 <= c < 127 && |text| < INPUT_SIZE - 1 then [Show(c, INPUT_FG)]
    else []
  }

  function NextText(text: seq<Char>, cursor: Cell, c: Char): seq<Char> {
    if c == 10 || c == 13 then []
    else if c == 8 || c == 127 then if text == [] then [] else text[..|text| - 1]
    else if c == 9 then text + Spaces(TabSpaces(text, cursor))
    else if 32 <= c < 127 && |text| < INPUT_SIZE - 1 then text + [c]
    else text
  }

  function Do(v: View, acts: seq<Act>): View
    decreases |acts|
  {
    if acts == [] then v
    else Do(match acts[0] case Show(c, fg) => Put(v, c, fg, 0) case Seek(p) => v.(cursor := p), acts[1..])
  }

  function LogDo(g: Log, acts: seq<Act>): Log
    decreases |acts|
  {
    if acts == [] then g
    else LogDo(match acts[0] case Show(c, fg) => LogPut(g, c, fg, 0) case Seek(p) => g.(cursor := p), acts[1..])
  }

  datatype Console = Console(view: View, input: Input)

  /** terminal_console */
  function Turn(k: Console, e: Event): Console {
    var v := if k.input.prompt then k.view else Do(k.view, PROMPT);
    match e
    case Idle => Console(v, k.input.(prompt := true))
    case PageUp => Console(ScrollUp(v), k.input.(prompt := true))
    case PageDown => Console(ScrollDown(v), k.input.(prompt := true))
    case Key(c, response) =>
      if c == 0 then Console(v, k.input.(prompt := true))
      else
        var w := Present(v);
        Console(Do(w, Echo(k.input.text, w.cursor, c, response)), Input(NextText(k.input.text, w.cursor, c), true))
  }

  datatype Session = Session(log: Log, input: Input)

  /** The same turn for somebody who never scrolls. */
  function LogTurn(s: Session, e: Event): Session {
    var g := if s.input.prompt then s.log else LogDo(s.log, PROMPT);
    match e
    case Key(c, response) =>
      if c == 0 then Session(g, s.input.(prompt := true))
      else Session(LogDo(g, Echo(s.input.text, g.cursor, c, response)),
          Input(NextText(s.input.text, g.cursor, c), true))
    case _ => Session(g, s.input.(prompt := true))
  }

  /** Erasing a character just typed gives the input line back, and the view but for one blank cell. */
  lemma EraseUndoes(k: Console, c: Char, none: seq<Char>)
    requires k.input.prompt && k.view.bottom == [] && |k.input.text| < INPUT_SIZE - 1
    requires 32 <= c < 127 && START <= k.view.cursor < BOTTOM - 1
    ensures var r := Turn(Turn(k, Key(c, none)), Key(8, none)); var p := k.view.cursor;
            r == Console(k.view.(screen := SetCell(k.view.screen, p, Entry(32, INPUT_FG, 0))), k.input)
  {
    var v, p := k.view, k.view.cursor;
    var w := v.(screen := SetCell(v.screen, p, Entry(c, INPUT_FG, 0)), cursor := p + 1);
    assert [Show(c, INPUT_FG)][1..] == [];
    assert Present(v) == v && Put(v, c, INPUT_FG, 0) == w;
    assert Do(v, [Show(c, INPUT_FG)]) == Do(w, []) == w;
    assert Turn(k, Key(c, none)) == Console(w, Input(k.input.text + [c], true));
    var a, b := Seek(p), Show(32, INPUT_FG);
    assert [a, b, a][1..] == [b, a] && [b, a][1..] == [a] && [a][1..] == [];
    var x := Put(w.(cursor := p), 32, INPUT_FG, 0);
    assert Do(x, [a]) == x.(cursor := p);
    assert Do(w.(cursor := p), [b, a]) == Do(x, [a]);
    assert Do(w, [a, b, a]) == x.(cursor := p);
    assert (k.input.text + [c])[..|k.input.text|] == k.input.text;
    SetCellTwice(v.screen, p, Entry(c, INPUT_FG, 0), Entry(32, INPUT_FG, 0));
  }

  lemma SetCellTwice(s: Screen, p: nat, e: Cell, f: Cell)
    requires START <= p < BOTTOM
    ensures SetCell(SetCell(s, p, e), p, f) == SetCell(s, p, f)
  {
    var i, j := p / 80 - 2, p % 80;
    var t := SetCell(s, p, e);
    assert t[i][j := f] == s[i][j := f];
    assert t[i := s[i][j := f]] == s[i := s[i][j := f]];
  }

  /** The console shows the session; as long as no prompt is out, nobody has scrolled. */
  predicate InStep(k: Console, s: Session) {
    Shows(k.view, s.log) && k.input == s.input && |k.input.text| < INPUT_SIZE
        && (!k.input.prompt ==> k.view.bottom == [])
  }

  lemma {:induction false} DoShows(v: View, g: Log, acts: seq<Act>)
    requires Shows(v, g) && v.bottom == []
    ensures var r := Do(v, acts); Shows(r, LogDo(g, acts)) && r.bottom == [] && r.header == v.header
    ensures |g.gone| <= |LogDo(g, acts).gone| && LogDo(g, acts).gone[..|g.gone|] == g.gone
    decreases |acts|
  {
    if acts != [] {
      match acts[0] {
        case Show(c, fg) =>
          PutShows(v, g, c, fg, 0);
          DoShows(Put(v, c, fg, 0), LogPut(g, c, fg, 0), acts[1..]);
          var h := LogDo(g, acts).gone;
          assert h[..|g.gone|] == h[..|LogPut(g, c, fg, 0).gone|][..|g.gone|];
        case Seek(p) =>
          DoShows(v.(cursor := p), g.(cursor := p), acts[1..]);
      }
    }
  }

  /** One turn: what is printed is printed at the present, the header stays, and no line ever printed is lost. */
  lemma TurnShows(k: Console, s: Session, e: Event)
    requires InStep(k, s)
    ensures InStep(Turn(k, e), LogTurn(s, e)) && Turn(k, e).view.header == k.view.header
    ensures |s.log.gone| <= |LogTurn(s, e).log.gone| && LogTurn(s, e).log.gone[..|s.log.gone|] == s.log.gone
  {
    hide Shows, Zip, Do, LogDo, ScrollUp, ScrollDown, Present, Room;
    var v := if k.input.prompt then k.view else Do(k.view, PROMPT);
    var g := if s.input.prompt then s.log else LogDo(s.log, PROMPT);
    if !k.input.prompt { DoShows(k.view, s.log, PROMPT); }
    match e
    case Idle =>
    case PageUp => MovedShows(v, g);
    case PageDown => MovedShows(v, g);
    case Key(c, response) =>
      if c != 0 {
        MovedShows(v, g);
        var w := Present(v);
        DoShows(w, g, Echo(s.input.text, g.cursor, c, response));
        var h := LogDo(g, Echo(s.input.text, g.cursor, c, response)).gone;
        assert h[..|s.log.gone|] == h[..|g.gone|][..|s.log.gone|];
      }
  }

  /** Scrolling moves the window only. */
  lemma MovedShows(v: View, g: Log)
    requires Shows(v, g)
    ensures Shows(ScrollUp(v), g) && Shows(ScrollDown(v), g) && Shows(Present(v), g) && v.cursor == g.cursor
    ensures ScrollUp(v).header == v.header && ScrollDown(v).header == v.header
  {
    ScrollUpZip(v);
    ScrollDownZip(v);
    PresentZip(v);
  }

  function Turns(k: Console, es: seq<Event>): Console
    decreases |es|
  {
    if es == [] then k else Turns(Turn(k, es[0]), es[1..])
  }

  function LogTurns(s: Session, es: seq<Event>): Session
    decreases |es|
  {
    if es == [] then s else LogTurns(LogTurn(s, es[0]), es[1..])
  }

  /**
   * After any mix of typing, printing and scrolling, the two buffers and the screen are the last lines of the
   * transcript that typing and printing alone would have made, the buffers are within their bounds, and the header
   * rows are as they were; and the transcript of the lines gone by has only been appended to.
   */
  lemma {:induction false} TurnsShow(k: Console, s: Session, es: seq<Event>)
    requires InStep(k, s)
    ensures InStep(Turns(k, es), LogTurns(s, es)) && Turns(k, es).view.header == k.view.header
    ensures |s.log.gone| <= |LogTurns(s, es).log.gone| && LogTurns(s, es).log.gone[..|s.log.gone|] == s.log.gone
    decreases |es|
  {
    if es != [] {
      TurnShows(k, s, es[0]);
      TurnsShow(Turn(k, es[0]), LogTurn(s, es[0]), es[1..]);
      var h := LogTurns(s, es).log.gone;
      assert h[..|s.log.gone|] == h[..|LogTurn(s, es[0]).log.gone|][..|s.log.gone|];
    }
  }

  /** From the blank terminal on: the two buffers and the screen are the end of the transcript, always. */
  lemma FromStart(header: seq<Cell>, es: seq<Event>)
    requires |header| == START
    ensures var k := Turns(Console(View(header, [], BlankLines(ROWS), [], START), Input([], false)), es);
            var s := LogTurns(Session(Log([], BlankLines(ROWS), START), Input([], false)), es);
            && k.view.header == header && |k.view.top| + |k.view.bottom| <= HISTORY
            && Zip(k.view) == Kept(s.log.gone) + s.log.screen
            && (k.view.bottom == [] ==> k.view.top == Kept(s.log.gone) && k.view.screen == s.log.screen)
  {
    var v := View(header, [], BlankLines(ROWS), [], START);
    var k := Console(v, Input([], false));
    var s := Session(Log([], BlankLines(ROWS), START), Input([], false));
    assert Zip(v) == Kept([]) + BlankLines(ROWS);
    TurnsShow(k, s, es);
    if Turns(k, es).view.bottom == [] { ShowsPresent(Turns(k, es).view, LogTurns(s, es).log); }
  }
}
