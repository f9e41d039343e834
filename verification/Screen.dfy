// The scrolling text screen of kernel/vga.c, and its second copy in drivers/screen.c.
module Scrollback {
  import opened Common

  const WIDTH: nat := 80
  const HEIGHT: nat := 25
  const NEWLINE: Byte := '\n' as int

  /** A character as it was printed: with the colour of that moment. */
  datatype Printed = Printed(ch: Byte, color: Byte)

  /** The paragraphs of a text: what lies between newlines. */
  function Split(text: seq<Printed>): (paragraphs: seq<seq<Printed>>)
    ensures paragraphs != []
  {
    if text == [] then [[]]
    else
      var rest := Split(text[1..]);
      if text[0].ch == NEWLINE then [[]] + rest else [[text[0]] + rest[0]] + rest[1..]
  }

  /** A paragraph broken into lines of 80 characters; an empty one is an empty line. */
  function Chunks(paragraph: seq<Printed>): (lines: seq<seq<Printed>>)
    ensures lines != []
    decreases |paragraph|
  {
    if |paragraph| <= WIDTH then [paragraph] else [paragraph[..WIDTH]] + Chunks(paragraph[WIDTH..])
  }

  function AllChunks(paragraphs: seq<seq<Printed>>): (lines: seq<seq<Printed>>)
    ensures paragraphs != [] ==> lines != []
  {
    if paragraphs == [] then []
    else AllChunks(paragraphs[..|paragraphs| - 1]) + Chunks(paragraphs[|paragraphs| - 1])
  }

  /** The unbounded output: the whole text wrapped at 80 columns. */
  function Wrap(text: seq<Printed>): (lines: seq<seq<Printed>>)
    ensures lines != []
  {
    AllChunks(Split(text))
  }

  function Last<T>(s: seq<T>): T
    requires s != []
  {
    s[|s| - 1]
  }

  function Front<T>(s: seq<T>): seq<T>
    requires s != []
  {
    s[..|s| - 1]
  }

  lemma {:induction false} SplitNewline(text: seq<Printed>, c: Printed)
    requires c.ch == NEWLINE
    ensures Split(text + [c]) == Split(text) + [[]]
  {
    if text == [] {
      assert Split([c][1..]) == [[]];
    } else {
      assert (text + [c])[1..] == text[1..] + [c];
      SplitNewline(text[1..], c);
      var rest := Split(text[1..]);
      assert (rest + [[]])[0] == rest[0] && (rest + [[]])[1..] == rest[1..] + [[]];
    }
  }

  lemma {:induction false} SplitChar(text: seq<Printed>, c: Printed)
    requires c.ch != NEWLINE
    ensures Split(text + [c]) == Front(Split(text)) + [Last(Split(text)) + [c]]
  {
    if text == [] {
      var none: seq<seq<Printed>> := [[]];
      assert Split([c][1..]) == none && Front(none) == [] && none[1..] == [];
      assert [c] + none[0] == Last(none) + [c];
    } else {
      assert (text + [c])[1..] == text[1..] + [c];
      SplitChar(text[1..], c);
      var rest := Split(text[1..]);
      var more := Front(rest) + [Last(rest) + [c]];
      if text[0].ch == NEWLINE {
        assert Front([[]] + rest) == [[]] + Front(rest);
      } else if |rest| == 1 {
        assert more == [rest[0] + [c]];
        assert [text[0]] + (rest[0] + [c]) == ([text[0]] + rest[0]) + [c];
      } else {
        var s := [[text[0]] + rest[0]] + rest[1..];
        assert more[0] == rest[0] && more[1..] == Front(rest)[1..] + [Last(rest) + [c]];
        assert Front(s) == [[text[0]] + rest[0]] + Front(rest)[1..] && Last(s) == Last(rest);
      }
    }
  }

  lemma {:induction false} ChunksAppend(p: seq<Printed>, c: Printed)
    ensures Chunks(p + [c])
         == if |Last(Chunks(p))| >= WIDTH then Chunks(p) + [[c]] else Front(Chunks(p)) + [Last(Chunks(p)) + [c]]
    ensures |Last(Chunks(p))| <= WIDTH
    decreases |p|
  {
    if |p| < WIDTH {
    } else if |p| == WIDTH {
      assert (p + [c])[..WIDTH] == p && (p + [c])[WIDTH..] == [c];
    } else {
      assert (p + [c])[..WIDTH] == p[..WIDTH] && (p + [c])[WIDTH..] == p[WIDTH..] + [c];
      ChunksAppend(p[WIDTH..], c);
      var rest := Chunks(p[WIDTH..]);
      assert Last([p[..WIDTH]] + rest) == Last(rest);
    }
  }

  /** One more character: a newline starts an empty line; any other character joins the last
      line, or starts a new one if that is full. So a newline after a full line adds no blank
      line. */
  lemma WrapAppend(text: seq<Printed>, c: Printed)
    ensures var lines := Wrap(text);
      && |Last(lines)| <= WIDTH
      && Wrap(text + [c])
      == if c.ch == NEWLINE then lines + [[]]
         else if |Last(lines)| >= WIDTH then lines + [[c]]
         else Front(lines) + [Last(lines) + [c]]
  {
    var ps := Split(text);
    if c.ch == NEWLINE { SplitNewline(text, c); } else { SplitChar(text, c); }
    ChunksAppend(Last(ps), c);
    var before := AllChunks(Front(ps));
    assert Wrap(text) == before + Chunks(Last(ps));
    if c.ch == NEWLINE {
      assert Front(ps + [[]]) == ps;
    } else {
      assert Front(Front(ps) + [Last(ps) + [c]]) == Front(ps);
    }
  }

  /** The lines once room is made for a character: a newline, or one that finds the last line
      full, starts a new line. */
  function Broken(lines: seq<seq<Printed>>, c: Printed): (broken: seq<seq<Printed>>)
    requires lines != []
    ensures broken != []
  {
    if c.ch == NEWLINE || |Last(lines)| >= WIDTH then lines + [[]] else lines
  }

  lemma WrapIsBrokenThenGrown(text: seq<Printed>, c: Printed)
    ensures var lines := Broken(Wrap(text), c);
      Wrap(text + [c]) == if c.ch == NEWLINE then lines else Front(lines) + [Last(lines) + [c]]
  {
    WrapAppend(text, c);
    var lines := Wrap(text);
    assert Front(lines + [[]]) == lines && Last(lines + [[]]) + [c] == [c];
  }

  function Flatten(lines: seq<seq<Printed>>): seq<Printed> {
    if lines == [] then [] else Flatten(Front(lines)) + Last(lines)
  }

  function WithoutNewlines(text: seq<Printed>): seq<Printed> {
    if text == [] then []
    else WithoutNewlines(Front(text)) + (if Last(text).ch == NEWLINE then [] else [Last(text)])
  }

  /** Wrapping loses, adds and reorders nothing, and no line is wider than the screen. */
  lemma {:induction false} WrapKeepsText(text: seq<Printed>)
    ensures Flatten(Wrap(text)) == WithoutNewlines(text)
    ensures forall i :: 0 <= i < |Wrap(text)| ==> |Wrap(text)[i]| <= WIDTH
  {
    if text == [] {
      assert Wrap(text) == [[]];
    } else {
      var t, c := Front(text), Last(text);
      assert text == t + [c];
      WrapKeepsText(t);
      WrapAppend(t, c);
      var lines := Wrap(t);
      assert Front(lines + [[]]) == lines && Front(lines + [[c]]) == lines;
      assert Front(Front(lines) + [Last(lines) + [c]]) == Front(lines);
      assert Flatten(Front(lines)) + (Last(lines) + [c]) == Flatten(Front(lines)) + Last(lines) + [c];
    }
  }

  /** The first line still on the screen. */
  function Top(lines: seq<seq<Printed>>): nat {
    if |lines| > HEIGHT then |lines| - HEIGHT else 0
  }
}

module Screen {
  import opened Common
  import opened Scrollback

  /** A character cell of video memory: the character, and its colours in the high byte. */
  type Cell = c: nat | c < 0x1_0000

  const CELLS: nat := 2000

  /** vga_make_color */
  function MakeColor(fg: nat, bg: nat): Byte
    requires fg < 16 && bg < 16
  {
    fg + 16 * bg
  }

  /** vga_make_char */
  function MakeChar(ch: Byte, color: Byte): (cell: Cell)
  {
    ch + 256 * color
  }

  /** The driver's version: its char is signed, so that a character from 0x80 on sets all
      bits of the colour. */
  function SignedChar(ch: Byte, color: Byte): (cell: Cell)
  {
    if ch < 0x80 then ch + 256 * color else ch + 0xff00
  }

  /** How the screen is drawn: with the driver's signed characters or not, on cells that are
      empty at the start, or left behind by scrolling. */
  datatype Style = Style(signedChars: bool, empty: Cell, blank: Byte)

  function CellOf(style: Style, p: Printed): Cell {
    if style.signedChars then SignedChar(p.ch, p.color) else MakeChar(p.ch, p.color)
  }

  /** What column x of a line shows: the character printed there, with its colours. Behind the
      end of a line it is the empty cell of the start, or what scrolling left, if the line did
      not fit the first screen. */
  function CellFor(lines: seq<seq<Printed>>, line: nat, x: nat, style: Style): Cell {
    if line < |lines| && x < |lines[line]| then CellOf(style, lines[line][x])
    else if line < HEIGHT then style.empty else style.blank
  }

  /** Row y, column x of the screen shows what it should of the wrapped output. */
  predicate CellShows(cells: seq<Cell>, y: nat, x: nat, lines: seq<seq<Printed>>, style: Style)
    requires |cells| == CELLS && y < HEIGHT && x < WIDTH
  {
    cells[y * WIDTH + x] == CellFor(lines, Top(lines) + y, x, style)
  }

  /** Video memory shows the last 25 lines, cell for cell, and the cursor stands behind the last
      of them. */
  ghost predicate Shows(cells: seq<Cell>, row: nat, col: nat, lines: seq<seq<Printed>>, style: Style)
    requires |cells| == CELLS && lines != []
  {
    && row == |lines| - 1 - Top(lines) && col == |Last(lines)| <= WIDTH
    && forall y, x :: 0 <= y < HEIGHT && 0 <= x < WIDTH ==> CellShows(cells, y, x, lines, style)
  }

  /** Starting a line below the last, where the screen is not full yet. */
  lemma LineStarted(cells: seq<Cell>, row: nat, col: nat, lines: seq<seq<Printed>>, style: Style)
    requires |cells| == CELLS && lines != [] && Shows(cells, row, col, lines, style)
    requires row + 1 < HEIGHT
    ensures Shows(cells, row + 1, 0, lines + [[]], style)
  {
    forall y, x | 0 <= y < HEIGHT && 0 <= x < WIDTH
      ensures CellShows(cells, y, x, lines + [[]], style)
    {
      assert CellShows(cells, y, x, lines, style);
    }
  }

  /** Starting a line at the bottom, once everything has moved up. */
  lemma LineScrolled(cells: seq<Cell>, cells': seq<Cell>, row: nat, col: nat, lines: seq<seq<Printed>>, style: Style)
    requires |cells| == |cells'| == CELLS && lines != [] && Shows(cells, row, col, lines, style)
    requires row + 1 == HEIGHT && Scrolled(cells, cells', style.blank)
    ensures Shows(cells', row, 0, lines + [[]], style)
  {
    forall y, x | 0 <= y < HEIGHT && 0 <= x < WIDTH
      ensures CellShows(cells', y, x, lines + [[]], style)
    {
      if y + 1 < HEIGHT {
        assert cells'[y * WIDTH + x] == cells[(y + 1) * WIDTH + x];
        assert CellShows(cells, y + 1, x, lines, style);
      }
    }
  }

  /** Every row has moved up by one, and the last one is blank. */
  ghost predicate Scrolled(cells: seq<Cell>, cells': seq<Cell>, blank: Byte)
    requires |cells| == |cells'| == CELLS
  {
    && (forall i :: 0 <= i < CELLS - WIDTH ==> cells'[i] == cells[i + WIDTH])
    && (forall i :: CELLS - WIDTH <= i < CELLS ==> cells'[i] == blank)
  }

  /** Drawing a character at the cursor. */
  lemma CharDrawn(cells: seq<Cell>, row: nat, col: nat, lines: seq<seq<Printed>>, style: Style, c: Printed)
    requires |cells| == CELLS && lines != [] && Shows(cells, row, col, lines, style) && col < WIDTH
    ensures row < HEIGHT
    ensures Shows(cells[row * WIDTH + col := CellOf(style, c)], row, col + 1,
                  Front(lines) + [Last(lines) + [c]], style)
  {
    var cells', lines' := cells[row * WIDTH + col := CellOf(style, c)], Front(lines) + [Last(lines) + [c]];
    forall y, x | 0 <= y < HEIGHT && 0 <= x < WIDTH
      ensures CellShows(cells', y, x, lines', style)
    {
      assert CellShows(cells, y, x, lines, style);
      assert y * WIDTH + x == row * WIDTH + col <==> y == row && x == col;
    }
  }

  /** The text screen: kernel/vga.c blanks with spaces, drivers/screen.c with NULs. */
  class TextScreen {
    const videoMemory: array<Cell>
    const blank: Byte
    const signedChars: bool
    var color: Byte
    var col: nat
    var row: nat
    /** Everything printed so far. */
    ghost var text: seq<Printed>
    /** The cells of the cleared screen. */
    ghost const empty: Cell

    ghost function Look(): Style { Style(signedChars, empty, blank) }

    ghost predicate Valid()
      reads this, videoMemory
    {
      videoMemory.Length == CELLS && Shows(videoMemory[..], row, col, Wrap(text), Look())
    }

    /** vga_init: white on black, and every cell a coloured space. */
    constructor Vga(videoMemory: array<Cell>)
      requires videoMemory.Length == CELLS
      modifies videoMemory
      ensures Valid() && text == [] && this.videoMemory == videoMemory
      ensures blank == 0x20 && !signedChars && color == 0x0f
      ensures forall i :: 0 <= i < CELLS ==> videoMemory[i] == 0x0f20
    {
      this.videoMemory := videoMemory;
      blank := 0x20;
      signedChars := false;
      empty := 0x0f20;
      color := MakeColor(15, 0);
      col, row := 0, 0;
      text := [];
      new;
      Clear();
    }

    /** The driver's start: light cyan on black, and every cell a coloured NUL. */
    constructor Driver(videoMemory: array<Cell>)
      requires videoMemory.Length == CELLS
      modifies videoMemory
      ensures Valid() && text == [] && this.videoMemory == videoMemory
      ensures blank == 0 && signedChars && color == 0x0b
      ensures forall i :: 0 <= i < CELLS ==> videoMemory[i] == 0x0b00
    {
      this.videoMemory := videoMemory;
      blank := 0;
      signedChars := true;
      empty := 0x0b00;
      color := MakeColor(11, 0);
      col, row := 0, 0;
      text := [];
      new;
      Clear();
    }

    /** The clearing loops of vga_init and clear. */
    method Clear()
      requires videoMemory.Length == CELLS && row == col == 0 && text == [] && blank < 0x80
      requires empty == MakeChar(blank, color)
      modifies videoMemory
      ensures Valid()
      ensures forall i :: 0 <= i < CELLS ==> videoMemory[i] == MakeChar(blank, color)
    {
      var y := 0;
      while y < HEIGHT
        invariant y <= HEIGHT
        invariant forall i :: 0 <= i < y * WIDTH ==> videoMemory[i] == MakeChar(blank, color)
      {
        var x := 0;
        while x < WIDTH
          invariant x <= WIDTH
          invariant forall i :: 0 <= i < y * WIDTH + x ==> videoMemory[i] == MakeChar(blank, color)
        {
          PutCharAt(blank, x, y);
          x := x + 1;
        }
        y := y + 1;
      }
      assert Wrap([]) == [[]];
    }

    /** vga_putchat, put_char_at: the cell's character is the one given, in the colour of the
        moment but for the driver's characters from 0x80 on. */
    method PutCharAt(ch: Byte, x: nat, y: nat)
      requires videoMemory.Length == CELLS && x < WIDTH && y < HEIGHT
      modifies videoMemory
      ensures videoMemory[y * WIDTH + x] % 256 == ch
      ensures videoMemory[y * WIDTH + x] / 256 == if signedChars && 0x80 <= ch then 0xff else color
      ensures videoMemory[y * WIDTH + x] == CellOf(Look(), Printed(ch, color))
      ensures videoMemory[..] == old(videoMemory[..])[y * WIDTH + x := videoMemory[y * WIDTH + x]]
    {
      var idx := y * WIDTH + x;
      videoMemory[idx] := if signedChars then SignedChar(ch, color) else MakeChar(ch, color);
    }

    /** The inner loop of vga_scrollup: row y moves up. */
    method MoveRowUp(y: nat)
      requires videoMemory.Length == CELLS && 1 <= y < HEIGHT
      modifies videoMemory
      ensures forall i :: (y - 1) * WIDTH <= i < y * WIDTH ==> videoMemory[i] == old(videoMemory[i + WIDTH])
      ensures forall i :: 0 <= i < CELLS && !((y - 1) * WIDTH <= i < y * WIDTH) ==>
        videoMemory[i] == old(videoMemory[i])
    {
      var x := 0;
      while x < WIDTH
        invariant x <= WIDTH
        invariant forall i :: (y - 1) * WIDTH <= i < (y - 1) * WIDTH + x ==>
          videoMemory[i] == old(videoMemory[i + WIDTH])
        invariant forall i :: 0 <= i < CELLS && !((y - 1) * WIDTH <= i < (y - 1) * WIDTH + x) ==>
          videoMemory[i] == old(videoMemory[i])
      {
        videoMemory[(y - 1) * WIDTH + x] := videoMemory[y * WIDTH + x];
        x := x + 1;
      }
    }

    /** vga_scrollup, scrollup */
    method ScrollUp()
      requires videoMemory.Length == CELLS
      modifies videoMemory
      ensures Scrolled(old(videoMemory[..]), videoMemory[..], blank)
    {
      var y := 1;
      while y < HEIGHT
        invariant 1 <= y <= HEIGHT
        invariant forall i :: 0 <= i < (y - 1) * WIDTH ==> videoMemory[i] == old(videoMemory[i + WIDTH])
        invariant forall i :: (y - 1) * WIDTH <= i < CELLS ==> videoMemory[i] == old(videoMemory[i])
      {
        MoveRowUp(y);
        y := y + 1;
      }
      BlankLastRow();
    }

    /** The last loop of vga_scrollup. */
    method BlankLastRow()
      requires videoMemory.Length == CELLS
      modifies videoMemory
      ensures forall i :: 0 <= i < CELLS - WIDTH ==> videoMemory[i] == old(videoMemory[i])
      ensures forall i :: CELLS - WIDTH <= i < CELLS ==> videoMemory[i] == blank
    {
      var x := 0;
      while x < WIDTH
        invariant x <= WIDTH
        invariant forall i :: 0 <= i < CELLS - WIDTH ==> videoMemory[i] == old(videoMemory[i])
        invariant forall i :: CELLS - WIDTH <= i < CELLS - WIDTH + x ==> videoMemory[i] == blank
      {
        videoMemory[(HEIGHT - 1) * WIDTH + x] := blank;
        x := x + 1;
      }
    }

    /** vga_putch, put_char: whatever was printed before, the screen shows the last 25 lines of
        the whole output wrapped at 80 columns, each character in the colour of its moment. */
    method PutChar(ch: Byte)
      requires Valid()
      modifies `row, `col, `text, videoMemory
      ensures Valid() && text == old(text) + [Printed(ch, color)]
      ensures row < 25 && col <= 80
    {
      ghost var p := Printed(ch, color);
      WrapIsBrokenThenGrown(text, p);
      ghost var lines := Broken(Wrap(text), p);
      BreakLine(ch);
      text := text + [p];
      if ch == NEWLINE {
        return;
      }
      DrawChar(ch, lines);
    }

    /** The second half of vga_putch: draw the character and step to the right. */
    method DrawChar(ch: Byte, ghost lines: seq<seq<Printed>>)
      requires videoMemory.Length == CELLS && lines != [] && col < WIDTH
      requires Shows(videoMemory[..], row, col, lines, Look())
      modifies `col, videoMemory
      ensures Shows(videoMemory[..], row, col, Front(lines) + [Last(lines) + [Printed(ch, color)]], Look())
    {
      ghost var cells := videoMemory[..];
      PutCharAt(ch, col, row);
      CharDrawn(cells, row, col, lines, Look(), Printed(ch, color));
      col := col + 1;
    }

    /** The first half of vga_putch: go to the next line if need be, and scroll if need be. */
    method BreakLine(ch: Byte)
      requires Valid()
      modifies `row, `col, videoMemory
      ensures Shows(videoMemory[..], row, col, Broken(Wrap(text), Printed(ch, color)), Look())
      ensures ch != NEWLINE ==> col < WIDTH
    {
      ghost var lines, cells, row0, col0 := Wrap(text), videoMemory[..], row, col;
      if col >= WIDTH || ch == NEWLINE {
        col := 0;
        row := row + 1;
      }
      if row >= HEIGHT {
        ScrollUp();
        row := row - 1;
        LineScrolled(cells, videoMemory[..], row0, col0, lines, Look());
      } else if row != row0 {
        LineStarted(cells, row0, col0, lines, Look());
      }
    }

    /** vga_puts: the characters up to the NUL. */
    method Puts(s: seq<Byte>)
      requires Valid() && 0 in s
      modifies `row, `col, `text, videoMemory
      ensures Valid()
      ensures forall n :: 0 <= n < |s| && s[n] == 0 && 0 !in s[..n] ==> text == old(text) + InColor(s[..n], color)
    {
      var i := 0;
      while s[i] != 0
        invariant 0 <= i < |s| && 0 !in s[..i]
        invariant Valid() && text == old(text) + InColor(s[..i], color)
        decreases |s| - i
      {
        PutChar(s[i]);
        assert InColor(s[..i + 1], color) == InColor(s[..i], color) + [Printed(s[i], color)];
        i := i + 1;
      }
    }
  }

  /** A string printed in one colour. */
  function InColor(s: seq<Byte>, color: Byte): (text: seq<Printed>)
    ensures |text| == |s| && forall i :: 0 <= i < |s| ==> text[i] == Printed(s[i], color)
  {
    seq(|s|, i requires 0 <= i < |s| => Printed(s[i], color))
  }
}
