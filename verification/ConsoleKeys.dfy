/** What each key does to the console, told by lines and cells. */
module ConsoleKeys {
  import opened Scrollback

  // ---------------------------------------------------------------------
  // Characters on the screen

  /** A cell holds its character in the low byte, and the colours of text and background above it. */
  lemma EntryParts(c: Char, fg: Color, bg: Color)
    ensures var e := Entry(c, fg, bg); e % 256 == c && e / 256 % 16 == fg && e / 4096 == bg
  {
  }

  /**
   * Output at the present: the character does on the screen what TypeMeans says, with the cursor behind it; where that
   * would be past the last row, the line at the top goes to the history, whose oldest line makes room if it is full,
   * all rows move up, and the cursor is at the start of the blank last row.
   */
  lemma PutMeans(v: View, c: Char, fg: Color, bg: Color)
    requires Room(v) && v.bottom == []
    ensures var r := Put(v, c, fg, bg); var (t, q) := Type(v.screen, v.cursor, c, fg, bg);
            && r.header == v.header && r.bottom == []
            && (if q < 25 * 80 then r.cursor == q && r.screen == t && r.top == v.top
                else
                  && r.cursor == 24 * 80 && r.screen == t[1..] + [BlankLine()]
                  && (forall i :: 0 <= i < 80 ==> r.screen[22][i] == 0x0F00)
                  && r.top == (if |v.top| < 1024 then v.top else v.top[1..]) + [t[0]])
  {
  }

  // ---------------------------------------------------------------------
  // Scroll keys

  /** The view once the prompt is out, as at the start of every turn. */
  function Prompted(k: Console): View { if k.input.prompt then k.view else PutAll(k.view, [62, 32], 10) }

  /** Characters put one after the other. */
  function PutAll(v: View, cs: seq<Char>, fg: Color): View
    decreases |cs|
  {
    if cs == [] then v else PutAll(Put(v, cs[0], fg, 0), cs[1..], fg)
  }

  lemma {:induction false} DoAll(v: View, cs: seq<Char>, fg: Color, acts: seq<Act>)
    requires |acts| >= |cs| && forall i :: 0 <= i < |cs| ==> acts[i] == Show(cs[i], fg)
    ensures Do(v, acts) == Do(PutAll(v, cs, fg), acts[|cs|..])
    decreases |cs|
  {
    if cs == [] {
      assert acts[0..] == acts;
    } else {
      DoAll(Put(v, cs[0], fg, 0), cs[1..], fg, acts[1..]);
      assert acts[1..][|cs| - 1..] == acts[|cs|..];
    }
  }

  lemma PromptIs(k: Console)
    ensures Prompted(k) == if k.input.prompt then k.view else Do(k.view, PROMPT)
  {
    DoAll(k.view, [62, 32], 10, PROMPT);
    assert PROMPT[2..] == [];
  }

  /** The window of 23 lines that starts at line i of all lines kept. */
  predicate Window(v: View, lines: seq<Line>, i: nat) {
    && Zip(v) == lines && |v.top| == i && i + 23 <= |lines|
    && v.top == lines[..i] && v.screen == lines[i..i + 23]
  }

  lemma WindowIs(v: View)
    ensures Window(v, Zip(v), |v.top|) && |Zip(v)| == |v.top| + 23 + |v.bottom|
  {
  }

  /**
   * The scroll keys move the window by one line over the lines kept and change nothing else: Page Up towards the oldest
   * line, Page Down towards the newest, each stopping at its end.
   */
  lemma ScrollKeys(k: Console)
    requires Room(Prompted(k))
    ensures var v := Prompted(k); var lines, i := Zip(v), |v.top|; var up, down := Turn(k, PageUp), Turn(k, PageDown);
            && Window(up.view, lines, if i == 0 then 0 else i - 1)
            && Window(down.view, lines, if i + 23 == |lines| then i else i + 1)
            && up.input == down.input == Input(k.input.text, true)
            && up.view.header == down.view.header == v.header && up.view.cursor == down.view.cursor == v.cursor
            && Room(up.view) && Room(down.view)
  {
    PromptIs(k);
    hide Zip, Do, PutAll, Put;
    var v := Prompted(k);
    ScrollUpZip(v);
    ScrollDownZip(v);
    WindowIs(v);
    WindowIs(ScrollUp(v));
    WindowIs(ScrollDown(v));
  }

  function Times(e: Event, n: nat): (es: seq<Event>)
    ensures |es| == n && forall i :: 0 <= i < n ==> es[i] == e
  {
    seq(n, _ => e)
  }

  /** Page Up n times shows the window n lines back, or the oldest lines there are. */
  lemma {:induction false} PageUps(k: Console, n: nat)
    requires k.input.prompt && Room(k.view)
    ensures var r := Turns(k, Times(PageUp, n)); var i := |k.view.top|;
            Window(r.view, Zip(k.view), if n < i then i - n else 0) && r.input == k.input
    decreases n
  {
    hide Zip, Turn, Room, Window;
    WindowIs(k.view);
    if n > 0 {
      ScrollKeys(k);
      PageUps(Turn(k, PageUp), n - 1);
      WindowTop(Turn(k, PageUp).view, Zip(k.view));
      assert Times(PageUp, n)[1..] == Times(PageUp, n - 1);
    }
  }

  lemma WindowTop(v: View, lines: seq<Line>)
    ensures forall i :: Window(v, lines, i) ==> |v.top| == i && Zip(v) == lines
  {
  }

  /** Page Down n times shows the window n lines on, or the present. */
  lemma {:induction false} PageDowns(k: Console, n: nat)
    requires k.input.prompt && Room(k.view)
    ensures var r := Turns(k, Times(PageDown, n)); var i, last := |k.view.top|, |Zip(k.view)| - 23;
            i <= last && Window(r.view, Zip(k.view), if i + n < last then i + n else last) && r.input == k.input
    decreases n
  {
    hide Zip, Turn, Room, Window;
    WindowIs(k.view);
    if n > 0 {
      ScrollKeys(k);
      PageDowns(Turn(k, PageDown), n - 1);
      WindowTop(Turn(k, PageDown).view, Zip(k.view));
      assert Times(PageDown, n)[1..] == Times(PageDown, n - 1);
    }
  }

  // ---------------------------------------------------------------------
  // Typing

  /** A turn without a key, or with a key that stands for no character, shows the prompt and does nothing else. */
  lemma NoKey(k: Console, none: seq<Char>)
    ensures Turn(k, Idle) == Turn(k, Key(0, none)) == Console(Prompted(k), Input(k.input.text, true))
  {
    PromptIs(k);
    hide Do, PutAll;
  }

  /** Every other key first returns to the present, from however far back. */
  function Ready(k: Console): View { Present(Prompted(k)) }

  /** A printable character is shown and joins the input line, which holds at most 255 characters. */
  lemma PrintKey(k: Console, c: Char, none: seq<Char>)
    requires 32 <= c < 127
    ensures Turn(k, Key(c, none))
            == if |k.input.text| < 255 then Console(Put(Ready(k), c, 7, 0), Input(k.input.text + [c], true))
               else Console(Ready(k), Input(k.input.text, true))
  {
    PromptIs(k);
    hide PutAll, Put, Present, Do;
    var acts: seq<Act> := [Show(c, 7)];
    assert acts[1..] == [];
    DoOne(Ready(k), acts);
    DoNone(Put(Ready(k), c, 7, 0));
    DoNone(Ready(k));
  }

  /** Enter starts a new line, prints what the command prints if there is one, and shows the prompt of an empty line. */
  lemma EnterKey(k: Console, c: Char, response: seq<Char>)
    requires c == 10 || c == 13
    ensures var v := Put(Ready(k), 10, 7, 0); var w := if k.input.text == [] then v else PutAll(v, response, 7);
            Turn(k, Key(c, response)) == Console(PutAll(w, [62, 32], 10), Input([], true))
  {
    PromptIs(k);
    hide PutAll, Put, Present, Do;
    var text := if k.input.text == [] then [] else response;
    var acts := [Show(10, 7)] + ShowAll(text) + PROMPT;
    DoOne(Ready(k), acts);
    assert acts[1..] == ShowAll(text) + PROMPT;
    DoAll(Put(Ready(k), 10, 7, 0), text, 7, ShowAll(text) + PROMPT);
    assert (ShowAll(text) + PROMPT)[|text|..] == PROMPT;
    PutNone(Put(Ready(k), 10, 7, 0));
    var w := PutAll(Put(Ready(k), 10, 7, 0), text, 7);
    DoAll(w, [62, 32], 10, PROMPT);
    assert PROMPT[2..] == [];
    DoNone(PutAll(w, [62, 32], 10));
  }

  lemma DoOne(v: View, acts: seq<Act>)
    requires acts != [] && acts[0].Show?
    ensures Do(v, acts) == Do(Put(v, acts[0].c, acts[0].fg, 0), acts[1..])
  {
  }

  lemma DoNone(v: View)
    ensures Do(v, []) == v
  {
  }

  lemma PutNone(v: View)
    ensures PutAll(v, [], 7) == v
  {
  }

  /** Backspace takes the last character off the input line and blanks the cell before the cursor, which goes there. */
  lemma EraseKey(k: Console, c: Char, none: seq<Char>)
    requires c == 8 || c == 127
    ensures var w, n := Ready(k), |k.input.text|;
            Turn(k, Key(c, none))
            == if n == 0 then Console(w, Input([], true))
               else Console(if w.cursor == 0 then w
                            else Put(w.(cursor := w.cursor - 1), 32, 7, 0).(cursor := w.cursor - 1),
                   Input(k.input.text[..n - 1], true))
  {
    PromptIs(k);
    hide PutAll, Put, Present;
    var p := Ready(k).cursor;
    if p > 0 {
      var a, b := Seek(p - 1), Show(32, 7);
      assert [a, b, a][1..] == [b, a] && [b, a][1..] == [a] && [a][1..] == [];
      var x := Put(Ready(k).(cursor := p - 1), 32, 7, 0);
      assert Do(x, [a]) == x.(cursor := p - 1);
      assert Do(Ready(k).(cursor := p - 1), [b, a]) == Do(x, [a]);
      assert Do(Ready(k), [a, b, a]) == x.(cursor := p - 1);
    }
  }

  /**
   * Tab types one to four spaces, as many as bring the column of the cursor to a multiple of 4, or as few as the input
   * line still has room for.
   */
  lemma TabKey(k: Console, none: seq<Char>) returns (n: nat)
    requires |k.input.text| <= 255
    ensures n <= 4 && |k.input.text| + n <= 255
    ensures ((Ready(k).cursor % 80 + n) % 4 == 0 && n > 0) || |k.input.text| + n == 255
    ensures Turn(k, Key(9, none)) == Console(PutAll(Ready(k), Spaces(n), 7), Input(k.input.text + Spaces(n), true))
  {
    PromptIs(k);
    hide PutAll, Put, Present, Do;
    n := TabSpaces(k.input.text, Ready(k).cursor);
    DoAll(Ready(k), Spaces(n), 7, ShowAll(Spaces(n)));
    assert ShowAll(Spaces(n))[n..] == [];
    DoNone(PutAll(Ready(k), Spaces(n), 7));
  }

  /** Any other character only returns to the present. */
  lemma OtherKey(k: Console, c: Char, none: seq<Char>)
    requires c > 0 && c != 8 && c != 9 && c != 10 && c != 13 && (c < 32 || c > 127)
    ensures Turn(k, Key(c, none)) == Console(Ready(k), Input(k.input.text, true))
  {
    PromptIs(k);
    hide PutAll, Put, Present;
    DoNone(Ready(k));
  }
}
