/**
 * The text console: an 80 by 25 screen that scrolls, as a window onto everything ever typed.
 */
module Console {
  import opened Basics

  const WIDTH := 80
  const HEIGHT := 25
  const COLOR := 0x1F

  const NEWLINE: Byte := 10
  const RETURN: Byte := 13
  const BACKSPACE: Byte := 8
  const SPACE: Byte := 32

  /** A screen cell: the character below, the colour above it. */
  type Cell = nat

  function Entry(c: Byte): Cell {
    c + COLOR * 256
  }

  const BLANK: Cell := Entry(SPACE)

  function Blanks(n: nat): (r: seq<Cell>)
    ensures |r| == n && forall i :: 0 <= i < n ==> r[i] == BLANK
  {
    seq(n, _ => BLANK)
  }

  // ---------- the transcript ----------

  /** All rows so far, one after the other, without end; the cursor is in column x of the last. */
  datatype Transcript = Transcript(rows: nat, cells: seq<Cell>, x: nat) {
    predicate Ok() {
      rows > 0 && |cells| == WIDTH * rows && x < WIDTH
    }

    function Position(): nat
      requires Ok()
    {
      WIDTH * (rows - 1) + x
    }

    function NewRow(): Transcript {
      Transcript(rows + 1, cells + Blanks(WIDTH), 0)
    }

    function Type(c: Byte): Transcript
      requires Ok()
    {
      if c == NEWLINE then NewRow()
      else if c == RETURN then this.(x := 0)
      else if c == BACKSPACE then
        if x == 0 then this else this.(cells := cells[Position() - 1 := BLANK], x := x - 1)
      else
        var t := this.(cells := cells[Position() := Entry(c)], x := x + 1);
        if t.x == WIDTH then t.NewRow() else t
    }

    /** The first row on the screen. */
    function Top(): nat {
      if rows > HEIGHT then rows - HEIGHT else 0
    }

    /** What the screen shows at cell i: a cell of the last 25 rows, or a blank below them. */
    function Shown(i: nat): Cell {
      if WIDTH * Top() + i < |cells| then cells[WIDTH * Top() + i] else BLANK
    }
  }

  /** A new row moves the window down once the screen is full. */
  lemma WindowMoves(t: Transcript, i: nat)
    requires t.Ok() && i < WIDTH * HEIGHT
    ensures t.NewRow().Shown(i) == if t.rows < HEIGHT then t.Shown(i)
                                   else if i < WIDTH * (HEIGHT - 1) then t.Shown(i + WIDTH) else BLANK
  {
  }

  /** A cell of the last row is seen at the cursor's row. */
  lemma WindowChanges(t: Transcript, x: nat, v: Cell, i: nat)
    requires t.Ok() && x < WIDTH && i < WIDTH * HEIGHT
    ensures t.(cells := t.cells[WIDTH * (t.rows - 1) + x := v]).Shown(i)
         == if i == (t.rows - 1 - t.Top()) * WIDTH + x then v else t.Shown(i)
  {
  }

  const EMPTY := Transcript(1, Blanks(WIDTH), 0)

  lemma TypeOk(t: Transcript, c: Byte)
    requires t.Ok()
    ensures t.Type(c).Ok()
  {
  }

  function Typed(t: Transcript, s: seq<Byte>): (r: Transcript)
    requires t.Ok()
    ensures r.Ok()
    decreases |s|
  {
    if s == [] then t
    else
      TypeOk(Typed(t, s[..|s| - 1]), s[|s| - 1]);
      Typed(t, s[..|s| - 1]).Type(s[|s| - 1])
  }

  /** Rows above the cursor are never touched again. */
  lemma {:induction false} HistoryStays(t: Transcript, s: seq<Byte>)
    requires t.Ok()
    ensures Typed(t, s).rows >= t.rows
    ensures Typed(t, s).cells[..WIDTH * (t.rows - 1)] == t.cells[..WIDTH * (t.rows - 1)]
    decreases |s|
  {
    if s == [] {
    } else {
      HistoryStays(t, s[..|s| - 1]);
    }
  }

  predicate Printing(s: seq<Byte>) {
    forall i :: 0 <= i < |s| ==> s[i] != NEWLINE && s[i] != RETURN && s[i] != BACKSPACE
  }

  /** Text without control characters fills the rows from the left, each after the one before. */
  lemma {:induction false} PlainText(s: seq<Byte>)
    requires Printing(s)
    ensures Typed(EMPTY, s).Position() == |s|
    ensures forall i :: 0 <= i < |Typed(EMPTY, s).cells| ==>
      Typed(EMPTY, s).cells[i] == if i < |s| then Entry(s[i]) else BLANK
    decreases |s|
  {
    if s == [] {
    } else {
      var p := s[..|s| - 1];
      PlainText(p);
      var t, u := Typed(EMPTY, p), Typed(EMPTY, s);
      assert u == t.Type(s[|s| - 1]);
    }
  }

  /** Each key, in numerals: 10 starts a row of 80 blanks, 13 goes to its first column, 8 blanks the
      character to the left if there is one, and any other is shown white on blue (0x1F) at the
      cursor, with a new row after the eightieth. */
  lemma TypeInNumerals(t: Transcript, c: Byte)
    requires t.Ok()
    ensures c == 10 ==> t.Type(c) == Transcript(t.rows + 1, t.cells + seq(80, _ => 0x1F20), 0)
    ensures c == 13 ==> t.Type(c) == Transcript(t.rows, t.cells, 0)
    ensures c == 8 && t.x == 0 ==> t.Type(c) == t
    ensures c == 8 && t.x > 0 ==> t.Type(c) == Transcript(t.rows, t.cells[80 * (t.rows - 1) + t.x - 1 := 0x1F20], t.x - 1)
    ensures c !in {8, 10, 13} && t.x < 79 ==>
      t.Type(c) == Transcript(t.rows, t.cells[80 * (t.rows - 1) + t.x := 0x1F00 + c as nat], t.x + 1)
    ensures c !in {8, 10, 13} && t.x == 79 ==>
      t.Type(c) == Transcript(t.rows + 1, t.cells[80 * t.rows - 1 := 0x1F00 + c as nat] + seq(80, _ => 0x1F20), 0)
  {
  }

  /** Cell `i` of the screen shows cell `i` of the last 25 rows, or a blank. */
  lemma ShownInNumerals(t: Transcript, i: nat)
    requires t.Ok()
    ensures t.rows <= 25 ==> t.Shown(i) == if i < |t.cells| then t.cells[i] else 0x1F20
    ensures t.rows > 25 && i < 2000 ==> t.Shown(i) == t.cells[80 * (t.rows - 25) + i]
  {
  }

  // ---------- the code ----------

  class Terminal {
    const vga: array<Cell>
    var cursorX: nat
    var cursorY: nat

    constructor ()
      ensures fresh(vga) && vga.Length == WIDTH * HEIGHT && cursorX == 0 && cursorY == 0
    {
      vga := new Cell[WIDTH * HEIGHT];
      cursorX, cursorY := 0, 0;
    }

    /** The screen and the cursor are the window onto t. */
    ghost predicate Shows(t: Transcript)
      reads this, vga
    {
      && t.Ok() && vga.Length == WIDTH * HEIGHT
      && cursorX == t.x && cursorY == t.rows - 1 - t.Top()
      && forall i :: 0 <= i < WIDTH * HEIGHT ==> vga[i] == t.Shown(i)
    }

    /** The cursor is on the screen. */
    lemma CursorInside(t: Transcript)
      requires Shows(t)
      ensures cursorX < WIDTH && cursorY < HEIGHT && cursorY * WIDTH + cursorX < vga.Length
    {
    }

    method ClearRow(y: nat)
      requires y < HEIGHT && vga.Length == WIDTH * HEIGHT
      modifies vga
      ensures forall i :: 0 <= i < vga.Length ==>
        vga[i] == if y * WIDTH <= i < (y + 1) * WIDTH then BLANK else old(vga[i])
    {
      for x := 0 to WIDTH
        invariant forall i :: 0 <= i < vga.Length ==>
          vga[i] == if y * WIDTH <= i < y * WIDTH + x then BLANK else old(vga[i])
      {
        vga[y * WIDTH + x] := BLANK;
      }
    }

    method Clear()
      requires vga.Length == WIDTH * HEIGHT
      modifies this, vga
      ensures Shows(EMPTY)
    {
      for y := 0 to HEIGHT
        invariant forall i :: 0 <= i < y * WIDTH ==> vga[i] == BLANK
      {
        ClearRow(y);
      }
      cursorX, cursorY := 0, 0;
    }

    method CopyUp(y: nat)
      requires 0 < y < HEIGHT && vga.Length == WIDTH * HEIGHT
      modifies vga
      ensures forall i :: 0 <= i < vga.Length ==>
        vga[i] == if (y - 1) * WIDTH <= i < y * WIDTH then old(vga[i + WIDTH]) else old(vga[i])
    {
      for x := 0 to WIDTH
        invariant forall i :: 0 <= i < vga.Length ==>
          vga[i] == if (y - 1) * WIDTH <= i < (y - 1) * WIDTH + x then old(vga[i + WIDTH]) else old(vga[i])
      {
        vga[(y - 1) * WIDTH + x] := vga[y * WIDTH + x];
      }
    }

    method Scroll()
      requires vga.Length == WIDTH * HEIGHT
      modifies this, vga
      ensures cursorX == old(cursorX)
      ensures old(cursorY) < HEIGHT ==> cursorY == old(cursorY) && vga[..] == old(vga[..])
      ensures old(cursorY) >= HEIGHT ==> cursorY == HEIGHT - 1 && vga[..] == old(vga[WIDTH..]) + Blanks(WIDTH)
    {
      if cursorY < HEIGHT {
        return;
      }
      ghost var was := vga[..];
      for y := 1 to HEIGHT
        invariant cursorX == old(cursorX)
        invariant forall i :: 0 <= i < (y - 1) * WIDTH ==> vga[i] == was[i + WIDTH]
        invariant forall i :: (y - 1) * WIDTH <= i < vga.Length ==> vga[i] == was[i]
      {
        CopyUp(y);
      }
      ClearRow(HEIGHT - 1);
      assert vga[..] == was[WIDTH..] + Blanks(WIDTH);
      cursorY := HEIGHT - 1;
    }

    /** Write one cell of the cursor's row. */
    method SetCell(x: nat, v: Cell, ghost t: Transcript)
      requires Shows(t) && x < WIDTH
      modifies vga
      ensures Shows(t.(cells := t.cells[WIDTH * (t.rows - 1) + x := v]))
    {
      vga[cursorY * WIDTH + x] := v;
      forall i | 0 <= i < WIDTH * HEIGHT
        ensures vga[i] == t.(cells := t.cells[WIDTH * (t.rows - 1) + x := v]).Shown(i)
      {
        WindowChanges(t, x, v, i);
      }
    }

    /** Scroll after the cursor has gone to the start of the row below. */
    method ScrollRow(ghost t: Transcript)
      requires t.Ok() && vga.Length == WIDTH * HEIGHT && cursorX == 0 && cursorY == t.rows - t.Top()
      requires forall i :: 0 <= i < WIDTH * HEIGHT ==> vga[i] == t.Shown(i)
      modifies this, vga
      ensures Shows(t.NewRow())
    {
      ghost var was := vga[..];
      Scroll();
      forall i | 0 <= i < WIDTH * HEIGHT
        ensures vga[i] == t.NewRow().Shown(i)
      {
        WindowMoves(t, i);
        assert vga[i] == vga[..][i];
        assert i + WIDTH < WIDTH * HEIGHT ==> was[WIDTH..][i] == was[i + WIDTH] == t.Shown(i + WIDTH);
      }
    }

    /** What the screen shows after each character is the window onto the transcript after it. */
    method PutChar(c: Byte, ghost t: Transcript)
      requires Shows(t)
      modifies this, vga
      ensures Shows(t.Type(c))
    {
      if c == NEWLINE {
        cursorX, cursorY := 0, cursorY + 1;
        ScrollRow(t);
        return;
      }
      if c == RETURN {
        cursorX := 0;
        return;
      }
      if c == BACKSPACE {
        if cursorX > 0 {
          SetCell(cursorX - 1, BLANK, t);
          cursorX := cursorX - 1;
        }
        return;
      }
      PutPrinting(c, t);
    }

    method PutPrinting(c: Byte, ghost t: Transcript)
      requires Shows(t) && Printing([c])
      modifies this, vga
      ensures Shows(t.Type(c))
    {
      assert [c][0] == c;
      SetCell(cursorX, Entry(c), t);
      ghost var u := t.(cells := t.cells[t.Position() := Entry(c)]);
      cursorX := cursorX + 1;
      if cursorX >= WIDTH {
        cursorX, cursorY := 0, cursorY + 1;
        ScrollRow(u);
      } else {
        Scroll();
        assert forall i :: 0 <= i < vga.Length ==> vga[i] == vga[..][i];
      }
    }

    /** Nothing happens for a null string; else its characters up to the terminator are typed. */
    method Write(text: Option<seq<Byte>>, ghost t: Transcript)
      requires Shows(t) && (text.Some? ==> 0 in text.value)
      modifies this, vga
      ensures Shows(if text.None? then t else Typed(t, BeforeZero(text.value)))
    {
      if text.None? {
        return;
      }
      var s, i := text.value, 0;
      ghost var u := t;
      assert s[0..] == s && s[..0] == [];
      while s[i] != 0
        invariant 0 <= i < |s| && Terminated(s, i)
        invariant Shows(u) && u == Typed(t, s[..i])
        decreases |s| - i
      {
        PutChar(s[i], u);
        TypedMore(t, s, i);
        TerminatedMore(s, i);
        u := u.Type(s[i]);
        i := i + 1;
      }
      TerminatedHere(s, i);
    }
  }

  function BeforeZero(s: seq<Byte>): seq<Byte> {
    if s == [] || s[0] == 0 then [] else [s[0]] + BeforeZero(s[1..])
  }

  /** The first i characters come before the terminator. */
  predicate Terminated(s: seq<Byte>, i: nat) {
    i < |s| && 0 in s[i..] && BeforeZero(s) == s[..i] + BeforeZero(s[i..])
  }

  lemma TerminatedMore(s: seq<Byte>, i: nat)
    requires Terminated(s, i) && s[i] != 0
    ensures Terminated(s, i + 1)
  {
    assert s[i..] == [s[i]] + s[i + 1..];
    assert s[i..][1..] == s[i + 1..];
    assert s[..i + 1] == s[..i] + [s[i]];
  }

  lemma {:induction false} TerminatedHere(s: seq<Byte>, i: nat)
    requires Terminated(s, i) && s[i] == 0
    ensures BeforeZero(s) == s[..i]
  {
  }

  lemma {:induction false} TypedMore(t: Transcript, s: seq<Byte>, i: nat)
    requires t.Ok() && i < |s|
    ensures Typed(t, s[..i + 1]) == Typed(t, s[..i]).Type(s[i])
  {
    assert s[..i + 1][..i] == s[..i];
  }

  lemma PlainRows(s: seq<Byte>)
    requires Printing(s)
    ensures Typed(EMPTY, s).rows == |s| / 80 + 1 && Typed(EMPTY, s).x == |s| % 80
  {
    PlainText(s);
  }

  /** Text on a cleared screen: its last 25 rows of 80 characters, and the cursor behind it. */
  method PrintPlain(screen: Terminal, s: seq<Byte>)
    requires screen.vga.Length == 2000 && Printing(s) && 0 !in s
    modifies screen, screen.vga
    ensures screen.cursorX == |s| % 80 && screen.cursorY == if |s| / 80 < 25 then |s| / 80 else 24
    ensures var top := if |s| / 80 < 25 then 0 else 80 * (|s| / 80 - 24);
      forall i :: 0 <= i < 2000 ==> screen.vga[i] == if top + i < |s| then 0x1F00 + s[top + i] as nat else 0x1F20
  {
    screen.Clear();
    screen.Write(Some(s + [0]), EMPTY);
    BeforeZeroIs(s);
    PlainText(s);
    PlainRows(s);
    ghost var t := Typed(EMPTY, s);
    forall i | 0 <= i < 2000
      ensures screen.vga[i] == t.Shown(i)
    {
    }
  }

  lemma {:induction false} BeforeZeroIs(s: seq<Byte>)
    requires 0 !in s
    ensures BeforeZero(s + [0]) == s
  {
    if s == [] {
    } else {
      BeforeZeroIs(s[1..]);
      assert (s + [0])[1..] == s[1..] + [0];
    }
  }
}
