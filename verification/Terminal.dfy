/** The terminal in place: video memory and the two line buffers, moved row by row. */
module Terminal {
  import opened Scrollback

  // ---------------------------------------------------------------------
  // Rows of 80 cells

  function RowAt(s: seq<Cell>, i: nat): Line
    requires 80 * i + 80 <= |s|
  {
    s[80 * i..80 * i + 80]
  }

  function Rows(s: seq<Cell>, first: nat, n: nat): (r: seq<Line>)
    requires 80 * (first + n) <= |s|
    ensures |r| == n && forall i :: 0 <= i < n ==> r[i] == RowAt(s, first + i)
  {
    if n == 0 then [] else Rows(s, first, n - 1) + [RowAt(s, first + n - 1)]
  }

  function PutRow(s: seq<Cell>, i: nat, l: Line): (r: seq<Cell>)
    requires 80 * i + 80 <= |s|
    ensures |r| == |s|
    ensures forall k :: 0 <= k < |s| ==> r[k] == if 80 * i <= k < 80 * i + 80 then l[k - 80 * i] else s[k]
  {
    s[..80 * i] + l + s[80 * i + 80..]
  }

  lemma RowAtPut(s: seq<Cell>, i: nat, l: Line, j: nat)
    requires 80 * i + 80 <= |s| && 80 * j + 80 <= |s|
    ensures RowAt(PutRow(s, i, l), j) == if j == i then l else RowAt(s, j)
  {
  }

  /** Storing one row replaces one line, or none of those looked at. */
  lemma RowsPut(s: seq<Cell>, i: nat, l: Line, first: nat, n: nat)
    requires 80 * i + 80 <= |s| && 80 * (first + n) <= |s|
    ensures Rows(PutRow(s, i, l), first, n) == if first <= i < first + n then Rows(s, first, n)[i - first := l]
            else Rows(s, first, n)
  {
    hide PutRow, RowAt;
    forall k | 0 <= k < n
      ensures Rows(PutRow(s, i, l), first, n)[k] == if first + k == i then l
              else Rows(s, first, n)[k]
    {
      RowAtPut(s, i, l, first + k);
    }
  }

  lemma RowsMore(s: seq<Cell>, first: nat, n: nat)
    requires 80 * (first + n + 1) <= |s|
    ensures Rows(s, first, n + 1) == Rows(s, first, n) + [RowAt(s, first + n)]
  {
  }

  /** Nothing but the given rows changed. */
  ghost predicate SameBut(s: seq<Cell>, t: seq<Cell>, first: nat, n: nat) {
    |t| == |s| && forall k :: 0 <= k < |s| && !(80 * first <= k < 80 * (first + n)) ==> t[k] == s[k]
  }

  lemma PutSameBut(s: seq<Cell>, t: seq<Cell>, first: nat, n: nat, i: nat, l: Line)
    requires SameBut(s, t, first, n) && first <= i < first + n && 80 * (first + n) <= |s|
    ensures SameBut(s, PutRow(t, i, l), first, n)
  {
  }

  /** A row copied, cell by cell; source and target may be the same memory. */
  method CopyRow(src: array<Cell>, i: nat, dst: array<Cell>, j: nat)
    requires 80 * i + 80 <= src.Length && 80 * j + 80 <= dst.Length
    modifies dst
    ensures dst[..] == PutRow(old(dst[..]), j, RowAt(old(src[..]), i))
  {
    ghost var d, l := dst[..], RowAt(src[..], i);
    var col := 0;
    while col < 80
      invariant 0 <= col <= 80
      invariant forall k :: 0 <= k < dst.Length ==> dst[k] == if 80 * j <= k < 80 * j + col then l[k - 80 * j] else d[k]
      invariant forall k :: col <= k < 80 ==> src[80 * i + k] == l[k]
    {
      assert src[80 * i + col] == l[col];
      dst[80 * j + col] := src[80 * i + col];
      col := col + 1;
    }
  }

  /** Rows first + 1 to first + n - 1, moved up by one row each. */
  method ShiftUp(a: array<Cell>, first: nat, n: nat)
    requires n > 0 && 80 * (first + n) <= a.Length
    modifies a
    ensures Rows(a[..], first, n) == Rows(old(a[..]), first, n)[1..] + [Rows(old(a[..]), first, n)[n - 1]]
    ensures SameBut(old(a[..]), a[..], first, n)
  {
    hide PutRow, RowAt, Rows, SameBut, MovedUp;
    ghost var m, was := a[..], Rows(a[..], first, n);
    var r := 0;
    MovedUpEnds(was);
    SameRefl(m, first, n);
    while r + 1 < n
      invariant 0 <= r < n
      invariant Rows(a[..], first, n) == MovedUp(was, r)
      invariant SameBut(m, a[..], first, n)
    {
      ghost var s := a[..];
      CopyRow(a, first + r + 1, a, first + r);
      RowsPut(s, first + r, RowAt(s, first + r + 1), first, n);
      PutSameBut(m, s, first, n, first + r, RowAt(s, first + r + 1));
      RowOf(s, first, n, r + 1);
      MovedUpStep(was, r);
      r := r + 1;
    }
  }

  /** The rows while the first r of them have been overwritten by their successors. */
  ghost function MovedUp(was: seq<Line>, r: nat): seq<Line>
    requires r < |was|
  {
    was[1..r + 1] + was[r..]
  }

  lemma MovedUpEnds(was: seq<Line>)
    requires was != []
    ensures MovedUp(was, 0) == was && MovedUp(was, |was| - 1) == was[1..] + [was[|was| - 1]]
  {
  }

  lemma MovedUpStep(was: seq<Line>, r: nat)
    requires r + 1 < |was|
    ensures |MovedUp(was, r)| == |was| && MovedUp(was, r)[r + 1] == was[r + 1]
    ensures MovedUp(was, r)[r := was[r + 1]] == MovedUp(was, r + 1)
  {
  }

  /** The rows while those behind r have been overwritten by their predecessors. */
  ghost function MovedDown(was: seq<Line>, r: nat): seq<Line>
    requires r < |was|
  {
    was[..r + 1] + was[r..|was| - 1]
  }

  lemma MovedDownEnds(was: seq<Line>)
    requires was != []
    ensures MovedDown(was, |was| - 1) == was && MovedDown(was, 0) == [was[0]] + was[..|was| - 1]
  {
  }

  lemma MovedDownStep(was: seq<Line>, r: nat)
    requires 0 < r < |was|
    ensures |MovedDown(was, r)| == |was| && MovedDown(was, r)[r - 1] == was[r - 1]
    ensures MovedDown(was, r)[r := was[r - 1]] == MovedDown(was, r - 1)
  {
  }

  lemma SameRefl(s: seq<Cell>, first: nat, n: nat)
    ensures SameBut(s, s, first, n)
  {
  }

  lemma RowOf(s: seq<Cell>, first: nat, n: nat, r: nat)
    requires r < n && 80 * (first + n) <= |s|
    ensures RowAt(s, first + r) == Rows(s, first, n)[r]
  {
  }

  /** The same rows, moved down by one. */
  method ShiftDown(a: array<Cell>, first: nat, n: nat)
    requires n > 0 && 80 * (first + n) <= a.Length
    modifies a
    ensures Rows(a[..], first, n) == [Rows(old(a[..]), first, n)[0]] + Rows(old(a[..]), first, n)[..n - 1]
    ensures SameBut(old(a[..]), a[..], first, n)
  {
    hide PutRow, RowAt, Rows, SameBut, MovedDown;
    ghost var m, was := a[..], Rows(a[..], first, n);
    var r := n - 1;
    MovedDownEnds(was);
    SameRefl(m, first, n);
    while r > 0
      invariant 0 <= r < n
      invariant Rows(a[..], first, n) == MovedDown(was, r)
      invariant SameBut(m, a[..], first, n)
    {
      ghost var s := a[..];
      CopyRow(a, first + r - 1, a, first + r);
      RowsPut(s, first + r, RowAt(s, first + r - 1), first, n);
      PutSameBut(m, s, first, n, first + r, RowAt(s, first + r - 1));
      RowOf(s, first, n, r - 1);
      MovedDownStep(was, r);
      r := r - 1;
    }
  }

  // ---------------------------------------------------------------------
  // What the row operations do to the lines

  /** A row stored behind the last one of a buffer. */
  lemma PushRow(s: seq<Cell>, n: nat, l: Line)
    requires 80 * n + 80 <= |s|
    ensures Rows(PutRow(s, n, l), 0, n + 1) == Rows(s, 0, n) + [l]
  {
    RowsMore(PutRow(s, n, l), 0, n);
    RowsPut(s, n, l, 0, n);
    RowAtPut(s, n, l, n);
  }

  /** Overwriting the last row. */
  lemma LastRow(s: seq<Cell>, first: nat, n: nat, l: Line)
    requires n > 0 && 80 * (first + n) <= |s|
    ensures var r := Rows(s, first, n); Rows(PutRow(s, first + n - 1, l), first, n) == r[..n - 1] + [l]
  {
    RowsPut(s, first + n - 1, l, first, n);
  }

  lemma FirstRow(s: seq<Cell>, first: nat, n: nat, l: Line)
    requires n > 0 && 80 * (first + n) <= |s|
    ensures var r := Rows(s, first, n); Rows(PutRow(s, first, l), first, n) == [l] + r[1..]
  {
    RowsPut(s, first, l, first, n);
  }

  lemma HeaderKept(s: seq<Cell>, t: seq<Cell>)
    requires SameBut(s, t, 2, 23) && |s| == BOTTOM
    ensures t[..START] == s[..START]
  {
  }

  lemma HeaderPut(s: seq<Cell>, i: nat, l: Line)
    requires |s| == BOTTOM && 2 <= i < 25
    ensures PutRow(s, i, l)[..START] == s[..START]
  {
  }

  lemma CellSet(s: seq<Cell>, p: nat, e: Cell)
    requires |s| == BOTTOM && START <= p < BOTTOM
    ensures Rows(s[p := e], 2, 23) == SetCell(Rows(s, 2, 23), p, e) && s[p := e][..START] == s[..START]
  {
    var i := p / 80;
    var t := s[p := e];
    var l: Line := RowAt(s, i)[p % 80 := e];
    assert t == PutRow(s, i, l);
    RowsPut(s, i, l, 2, 23);
  }

  class Tty {
    const vga: array<Cell>
    const topBuffer: array<Cell>
    const bottomBuffer: array<Cell>
    var topCount: nat
    var bottomCount: nat
    var cursor: Cell
    var cursorShown: bool
    var input: seq<Char>
    var promptShown: bool

    ghost predicate Valid()
      reads this
    {
      && vga.Length == BOTTOM && topBuffer.Length == 80 * HISTORY && bottomBuffer.Length == 80 * HISTORY
      && vga != topBuffer && vga != bottomBuffer && topBuffer != bottomBuffer
      && topCount <= HISTORY && bottomCount <= HISTORY && |input| < INPUT_SIZE
    }

    ghost function V(): (v: View)
      requires Valid()
      reads this, vga, topBuffer, bottomBuffer
    {
      View(vga[..START], Rows(topBuffer[..], 0, topCount), Rows(vga[..], 2, ROWS),
          Rows(bottomBuffer[..], 0, bottomCount), cursor)
    }

    ghost function K(): Console
      requires Valid()
      reads this, vga, topBuffer, bottomBuffer
    {
      Console(V(), Input(input, promptShown))
    }

    constructor (v: array<Cell>, t: array<Cell>, b: array<Cell>)
      requires v.Length == BOTTOM && t.Length == b.Length == 80 * HISTORY && v != t && v != b && t != b
      ensures Valid() && vga == v && topBuffer == t && bottomBuffer == b
    {
      vga, topBuffer, bottomBuffer := v, t, b;
      topCount, bottomCount, cursor, cursorShown, input, promptShown := 0, 0, 0, false, [], false;
    }

    /** One row of video memory made blank. */
    method BlankRow(i: nat)
      requires Valid() && 2 <= i < 25
      modifies vga
      ensures vga[..] == PutRow(old(vga[..]), i, BlankLine())
    {
      var c := 0;
      while c < 80
        invariant 0 <= c <= 80
        invariant forall k :: 0 <= k < vga.Length
                    ==> vga[k] == if 80 * i <= k < 80 * i + c then BLANK_CELL else old(vga[k])
      {
        vga[80 * i + c] := BLANK_CELL;
        c := c + 1;
      }
    }

    /** terminal_auto_scroll */
    method AutoScroll()
      requires Valid()
      modifies this`topCount, this`bottomCount, vga, topBuffer
      ensures Valid() && V() == Scrollback.AutoScroll(old(V()))
    {
      hide Rows, RowAt, PutRow, SameBut;
      ghost var top, screen, s := topBuffer[..], vga[..], V().screen;
      RowOf(screen, 2, ROWS, 0);
      if topCount < HISTORY {
        CopyRow(vga, 2, topBuffer, topCount);
        PushRow(top, topCount, s[0]);
        topCount := topCount + 1;
      } else {
        ShiftUp(topBuffer, 0, HISTORY);
        ghost var shifted := topBuffer[..];
        CopyRow(vga, 2, topBuffer, HISTORY - 1);
        LastRow(shifted, 0, HISTORY, s[0]);
      }
      bottomCount := 0;
      ShiftUp(vga, 2, ROWS);
      HeaderKept(screen, vga[..]);
      ghost var shifted := vga[..];
      BlankRow(24);
      LastRow(shifted, 2, ROWS, BlankLine());
      HeaderPut(shifted, 24, BlankLine());
      NoRows(bottomBuffer[..]);
    }

    /** The body scroll_down and return_to_present share. */
    method Forward()
      requires Valid() && bottomCount > 0 && topCount < HISTORY
      modifies this`topCount, this`bottomCount, vga, topBuffer
      ensures Valid() && V() == Scrollback.ScrollDown(old(V())) && bottomCount == old(bottomCount) - 1
    {
      hide Rows, RowAt, PutRow, SameBut;
      ghost var top, screen, s, below := topBuffer[..], vga[..], V().screen, bottomBuffer[..];
      RowOf(screen, 2, ROWS, 0);
      CopyRow(vga, 2, topBuffer, topCount);
      PushRow(top, topCount, s[0]);
      topCount := topCount + 1;
      ShiftUp(vga, 2, ROWS);
      HeaderKept(screen, vga[..]);
      ghost var shifted := vga[..];
      ghost var l := RowAt(below, bottomCount - 1);
      CopyRow(bottomBuffer, bottomCount - 1, vga, 24);
      LastRow(shifted, 2, ROWS, l);
      HeaderPut(shifted, 24, l);
      RowsMore(below, 0, bottomCount - 1);
      bottomCount := bottomCount - 1;
    }

    /** return_to_present */
    method ReturnToPresent()
      requires Valid() && Room(V())
      modifies this`topCount, this`bottomCount, this`cursorShown, vga, topBuffer
      ensures Valid() && V() == Present(old(V()))
      ensures cursorShown == (old(cursorShown) || old(bottomCount) != 0)
    {
      hide Rows, RowAt, Scrollback.ScrollDown, Zip;
      if bottomCount == 0 { return; }
      while bottomCount > 0
        invariant Valid() && Room(V()) && Present(V()) == Present(old(V())) && cursorShown == old(cursorShown)
      {
        ScrollDownZip(V());
        Forward();
      }
      cursorShown := true;
    }

    method ScrollDown()
      requires Valid() && Room(V())
      modifies this`topCount, this`bottomCount, this`cursorShown, vga, topBuffer
      ensures Valid() && V() == Scrollback.ScrollDown(old(V()))
      ensures cursorShown == (old(cursorShown) || (bottomCount == 0 && old(bottomCount) != 0))
    {
      hide Rows, RowAt, Scrollback.ScrollDown, Room, Zip;
      NoBottom(V());
      if bottomCount == 0 { return; }
      ScrollDownZip(V());
      Forward();
      if bottomCount == 0 { cursorShown := true; }
    }

    /** The last line of the screen goes to the lower buffer, if that has room. */
    method SaveBottom()
      requires Valid()
      modifies this`bottomCount, bottomBuffer
      ensures Valid() && bottomCount == (if old(bottomCount) < HISTORY then old(bottomCount) + 1 else old(bottomCount))
      ensures var v := old(V());
              V() == v.(bottom := if |v.bottom| < HISTORY then v.bottom + [v.screen[22]] else v.bottom)
    {
      hide Rows, RowAt, PutRow;
      ghost var screen, s, below := vga[..], V().screen, bottomBuffer[..];
      RowOf(screen, 2, ROWS, 22);
      if bottomCount < HISTORY {
        CopyRow(vga, 24, bottomBuffer, bottomCount);
        PushRow(below, bottomCount, s[22]);
        bottomCount := bottomCount + 1;
      }
    }

    method ScrollUp()
      requires Valid()
      modifies this`topCount, this`bottomCount, this`cursorShown, vga, bottomBuffer
      ensures Valid() && V() == Scrollback.ScrollUp(old(V()))
      ensures cursorShown == (old(cursorShown) && old(topCount) == 0)
    {
      hide Rows, RowAt, PutRow, SameBut;
      if topCount == 0 { return; }
      cursorShown := false;
      SaveBottom();
      ghost var above, screen := topBuffer[..], vga[..];
      ShiftDown(vga, 2, ROWS);
      HeaderKept(screen, vga[..]);
      ghost var shifted := vga[..];
      ghost var l := RowAt(above, topCount - 1);
      CopyRow(topBuffer, topCount - 1, vga, 2);
      FirstRow(shifted, 2, ROWS, l);
      HeaderPut(shifted, 2, l);
      RowsMore(above, 0, topCount - 1);
      topCount := topCount - 1;
    }

    /** vga_clear and print_header, then an empty history. */
    method Initialize(header: seq<Cell>)
      requires Valid() && |header| == START
      modifies this`topCount, this`bottomCount, this`cursor, this`cursorShown, this`input, this`promptShown, vga
      ensures Valid() && K() == Console(View(header, [], BlankLines(ROWS), [], START), Input([], false)) && cursorShown
    {
      var i := 0;
      while i < BOTTOM
        invariant 0 <= i <= BOTTOM && forall k :: 0 <= k < i ==> vga[k] == BLANK_CELL
      {
        vga[i] := BLANK_CELL;
        i := i + 1;
      }
      i := 0;
      while i < START
        invariant 0 <= i <= START && vga[..i] == header[..i]
        invariant forall k :: START <= k < BOTTOM ==> vga[k] == BLANK_CELL
      {
        vga[i] := header[i];
        i := i + 1;
      }
      cursor, cursorShown := START, true;
      topCount, bottomCount, input, promptShown := 0, 0, [], false;
      BlankRows(vga[..], 2, ROWS);
      NoRows(topBuffer[..]);
      NoRows(bottomBuffer[..]);
    }

    /** putchar_color */
    method PutcharColor(c: Char, fg: Color, bg: Color)
      requires Valid()
      modifies this`topCount, this`bottomCount, this`cursor, vga, topBuffer
      ensures Valid() && V() == Put(old(V()), c, fg, bg)
    {
      hide Rows, RowAt, PutRow, SetCell, Entry, Scrollback.AutoScroll;
      var p: nat := cursor;
      if p >= BOTTOM || p < START { p := START; }
      if c == 10 {
        p := (p / 80 + 1) * 80;
      } else if c == 13 {
        p := p / 80 * 80;
      } else if c == 9 {
        var col := p % 80;
        var spaces := 8 - col % 8;
        if p + spaces >= BOTTOM { p := BOTTOM - 80; } else { p := p + spaces; }
      } else {
        ghost var s := vga[..];
        vga[p] := Entry(c, fg, bg);
        CellSet(s, p, Entry(c, fg, bg));
        assert vga[..] == s[p := Entry(c, fg, bg)];
        p := p + 1;
      }
      if p >= BOTTOM {
        AutoScroll();
        p := BOTTOM - 80;
      }
      cursor := p;
    }

    method Print(cs: seq<Char>)
      requires Valid()
      modifies this`topCount, this`bottomCount, this`cursor, vga, topBuffer
      ensures Valid() && V() == Do(old(V()), ShowAll(cs))
    {
      var i := 0;
      ghost var v := V();
      assert ShowAll(cs)[0..] == ShowAll(cs);
      while i < |cs|
        invariant 0 <= i <= |cs| && Valid() && Do(V(), ShowAll(cs)[i..]) == Do(v, ShowAll(cs))
      {
        assert ShowAll(cs)[i..][1..] == ShowAll(cs)[i + 1..];
        PutcharColor(cs[i], INPUT_FG, 0);
        i := i + 1;
      }
      assert ShowAll(cs)[i..] == [];
    }

    method PrintPrompt()
      requires Valid()
      modifies this`topCount, this`bottomCount, this`cursor, this`promptShown, vga, topBuffer
      ensures Valid() && V() == Do(old(V()), PROMPT) && promptShown
    {
      PromptIs(V());
      PutcharColor(62, 10, 0);
      PutcharColor(32, 10, 0);
      promptShown := true;
    }

    /** A typed character, once the view is at the present. */
    method Type(c: Char, response: seq<Char>)
      requires Valid() && promptShown
      modifies this`topCount, this`bottomCount, this`cursor, this`input, this`promptShown, vga, topBuffer
      ensures Valid() && promptShown
      ensures V() == Do(old(V()), Echo(old(input), old(cursor), c, response))
              && input == NextText(old(input), old(cursor), c)
    {
      hide Rows, RowAt, Put, ShowAll, Spaces;
      ghost var v := V();
      EchoIs(v, input, c, response);
      if c == 10 || c == 13 {
        PutcharColor(10, INPUT_FG, 0);
        if |input| > 0 { Print(response); }
        input := [];
        promptShown := false;
        PrintPrompt();
      } else if c == 8 || c == 127 {
        if |input| > 0 {
          var cur := cursor;
          if cur > 0 {
            cursor := cur - 1;
            PutcharColor(32, INPUT_FG, 0);
            cursor := cur - 1;
          }
          input := input[..|input| - 1];
        }
      } else if c == 9 {
        var spaces := 4 - cursor % 80 % 4;
        var free := INPUT_SIZE - 1 - |input|;
        if free <= 0 { return; }
        if spaces > free { spaces := free; }
        Print(Spaces(spaces));
        input := input + Spaces(spaces);
      } else if 32 <= c < 127 {
        if |input| < INPUT_SIZE - 1 {
          PutcharColor(c, INPUT_FG, 0);
          input := input + [c];
        }
      }
    }

    /** terminal_console: the cursor is shown exactly at the present. */
    method TakeTurn(e: Event)
      requires Valid() && Room(V()) && (cursorShown <==> bottomCount == 0) && (!promptShown ==> bottomCount == 0)
      modifies this`topCount, this`bottomCount, this`cursor, this`cursorShown, this`input, this`promptShown, vga,
          topBuffer, bottomBuffer
      ensures Valid() && K() == Turn(old(K()), e)
      ensures Room(V()) && (cursorShown <==> bottomCount == 0) && promptShown
    {
      hide Rows, RowAt, Put, Do, Echo, NextText, Present, Scrollback.ScrollUp, Scrollback.ScrollDown, Room;
      if !promptShown {
        DoKeepsRoom(V(), PROMPT);
        PrintPrompt();
      }
      MoveKeepsRoom(V());
      match e
      case Idle =>
      case PageUp => ScrollUp();
      case PageDown => ScrollDown();
      case Key(c, response) =>
        if c != 0 {
          ReturnToPresent();
          DoKeepsRoom(V(), Echo(input, cursor, c, response));
          Type(c, response);
        }
    }
  }

  /** Everything printed keeps the buffers within their bounds, and ends at the present if it began there. */
  lemma {:induction false} DoKeepsRoom(v: View, acts: seq<Act>)
    requires Room(v)
    ensures Room(Do(v, acts)) && (v.bottom == [] ==> Do(v, acts).bottom == [])
    decreases |acts|
  {
    if acts != [] {
      match acts[0] {
        case Show(c, fg) => DoKeepsRoom(Put(v, c, fg, 0), acts[1..]);
        case Seek(p) => DoKeepsRoom(v.(cursor := p), acts[1..]);
      }
    }
  }

  lemma MoveKeepsRoom(v: View)
    requires Room(v)
    ensures Room(Scrollback.ScrollUp(v)) && Room(Scrollback.ScrollDown(v)) && Room(Present(v))
    ensures v.top == [] ==> Scrollback.ScrollUp(v) == v
    ensures v.bottom == [] ==> Scrollback.ScrollDown(v) == v
    ensures v.top != [] ==> Scrollback.ScrollUp(v).bottom != []
  {
    ScrollUpZip(v);
    ScrollDownZip(v);
    PresentZip(v);
  }

  /** What a typed character prints, act by act. */
  lemma EchoIs(v: View, text: seq<Char>, c: Char, response: seq<Char>)
    ensures var d := Do(v, Echo(text, v.cursor, c, response));
            && (c == 10 || c == 13
               ==> d == Do(if text == [] then Put(v, 10, INPUT_FG, 0)
                   else Do(Put(v, 10, INPUT_FG, 0), ShowAll(response)), PROMPT))
            && (c == 8 || c == 127 ==>
                  d == if text == [] || v.cursor == 0 then v
                       else Put(v.(cursor := v.cursor - 1), 32, INPUT_FG, 0).(cursor := v.cursor - 1))
            && (c == 9 ==> d == Do(v, ShowAll(Spaces(TabSpaces(text, v.cursor)))))
            && (32 <= c < 127 ==> d == if |text| < INPUT_SIZE - 1 then Put(v, c, INPUT_FG, 0) else v)
            && (c != 10 && c != 13 && c != 8 && c != 127 && c != 9 && !(32 <= c < 127) ==> d == v)
    ensures Do(v, ShowAll(Spaces(0))) == v && text + Spaces(0) == text
  {
    hide Put;
    if c == 10 || c == 13 {
      var r := ShowAll(if text == [] then [] else response);
      DoMore(v, [Show(10, INPUT_FG)] + r, PROMPT);
      DoMore(v, [Show(10, INPUT_FG)], r);
      assert [Show(10, INPUT_FG)][1..] == [];
    } else if c == 8 || c == 127 {
      if text != [] && v.cursor != 0 {
        var a, b := Seek(v.cursor - 1), Show(32, INPUT_FG);
        var w := Put(v.(cursor := v.cursor - 1), 32, INPUT_FG, 0);
        assert [a, b, a][1..] == [b, a] && [b, a][1..] == [a] && [a][1..] == [];
        assert Do(w, [a]) == w.(cursor := v.cursor - 1);
        assert Do(v.(cursor := v.cursor - 1), [b, a]) == Do(w, [a]);
      }
    } else if 32 <= c < 127 {
      assert [Show(c, INPUT_FG)][1..] == [];
    }
  }

  lemma {:induction false} BlankRows(s: seq<Cell>, first: nat, n: nat)
    requires 80 * (first + n) <= |s| && forall k :: 80 * first <= k < 80 * (first + n) ==> s[k] == BLANK_CELL
    ensures Rows(s, first, n) == BlankLines(n)
  {
    if n > 0 {
      BlankRows(s, first, n - 1);
      assert RowAt(s, first + n - 1) == BlankLine();
    }
  }

  lemma PromptIs(v: View)
    ensures Do(v, PROMPT) == Put(Put(v, 62, 10, 0), 32, 10, 0)
  {
    assert PROMPT[1..] == [Show(32, 10)] && [Show(32, 10)][1..] == [];
    hide Put;
  }

  lemma {:induction false} DoMore(v: View, a: seq<Act>, b: seq<Act>)
    ensures Do(v, a + b) == Do(Do(v, a), b)
    decreases |a|
  {
    if a == [] {
      assert a + b == b;
    } else {
      assert (a + b)[1..] == a[1..] + b;
      DoMore(match a[0] case Show(c, fg) => Put(v, c, fg, 0) case Seek(p) => v.(cursor := p), a[1..], b);
    }
  }

  lemma NoBottom(v: View)
    ensures v.bottom == [] ==> Scrollback.ScrollDown(v) == v && Present(v) == v
  {
  }

  lemma NoRows(s: seq<Cell>)
    ensures Rows(s, 0, 0) == []
  {
  }
}
