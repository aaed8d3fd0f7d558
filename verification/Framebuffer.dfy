/** framebuffer.c: the text framebuffer and the cursor behind the CRT controller's two ports. */
module Framebuffer {
  import opened Bytes
  import opened StdMem

  /** The part of video memory that a 16-bit cell offset can reach. */
  type Cells = s: seq<Byte> | |s| == 0x1_0000 witness Zeros(0x1_0000)

  /** Bitwise or of two 4-bit numbers. */
  function Or(a: nat, b: nat): (r: nat)
    requires a < 16 && b < 16
    ensures r < 16 && (a < 8 && b < 8 ==> r < 8) && (a < 4 && b < 4 ==> r < 4) && (a < 2 && b < 2 ==> r < 2)
    ensures b == 0 ==> r == a
    decreases a + b
  {
    if a == 0 then b else if b == 0 then a
    else 2 * Or(a / 2, b / 2) + if a % 2 == 1 || b % 2 == 1 then 1 else 0
  }

  /** bg << 4 | fg, cut to 8 bits. */
  function Color(fg: Byte, bg: Byte): (color: Byte)
    ensures fg < 16 ==> color == 16 * (bg % 16) + fg
  {
    16 * Or(bg % 16, fg / 16) + fg % 16
  }

  /** The number of the cell at a row and column. */
  function CursorAt(row: Byte, col: Byte): Word {
    row * 80 + col
  }

  /** The cells after a character and its colour are put at a row and column. */
  function Put(cells: Cells, row: Byte, col: Byte, c: Byte, color: Byte): Cells {
    Patch(cells, 2 * CursorAt(row, col), [c, color])
  }

  /** The row that framebuffer_get_cursor reports, cut to 8 bits. */
  function RowOf(pos: Word): Byte {
    pos / 80 % 0x100
  }

  function ColumnOf(pos: Word): Byte {
    pos % 80
  }

  /** Two bytes stored one after the other are one patch. */
  lemma {:induction false} TwoBytes(s: seq<Byte>, at: nat, b0: Byte, b1: Byte)
    requires at + 2 <= |s|
    ensures Patch(Patch(s, at, seq(1, _ => b0 % 0x100)), at + 1, seq(1, _ => b1 % 0x100)) == Patch(s, at, [b0, b1])
  {
    assert seq(1, _ => b0 % 0x100) == [b0] && seq(1, _ => b1 % 0x100) == [b1];
    PatchExtend(s, at, [b0], [b1]);
    assert [b0] + [b1] == [b0, b1];
  }

  /** Setting the cursor and reading it back returns the same row and column exactly for the columns of the screen. */
  lemma {:induction false} CursorRoundTrip(row: Byte, col: Byte)
    ensures RowOf(CursorAt(row, col)) == row && ColumnOf(CursorAt(row, col)) == col <==> col < 80
  {
    var pos: nat := row * 80 + col;
    if col < 80 {
      assert pos / 80 == row && pos % 80 == col;
    }
  }

  class Screen {
    const memory: array<Byte>
    /** The CRT controller: the selected register and its two cursor registers. */
    var selected: Byte
    var cursorLow: Byte
    var cursorHigh: Byte

    constructor ()
      ensures memory.Length == 0x1_0000 && fresh(memory)
    {
      memory := new Byte[0x1_0000](_ => 0);
      selected, cursorLow, cursorHigh := 0, 0, 0;
    }

    ghost function Cells(): Cells
      requires memory.Length == 0x1_0000
      reads memory
    {
      memory[..]
    }

    ghost function Cursor(): Word
      reads this
    {
      U16(cursorLow, cursorHigh)
    }

    method Out(port: Word, data: Byte)
      modifies this
      ensures selected == if port == 0x3D4 then data else old(selected)
      ensures cursorLow == if port == 0x3D5 && selected == 0x0F then data else old(cursorLow)
      ensures cursorHigh == if port == 0x3D5 && selected == 0x0E then data else old(cursorHigh)
    {
      if port == 0x3D4 {
        selected := data;
      } else if port == 0x3D5 && selected == 0x0F {
        cursorLow := data;
      } else if port == 0x3D5 && selected == 0x0E {
        cursorHigh := data;
      }
    }

    method In(port: Word) returns (data: Byte)
      ensures port == 0x3D5 && selected == 0x0F ==> data == cursorLow
      ensures port == 0x3D5 && selected == 0x0E ==> data == cursorHigh
    {
      data := if selected == 0x0F then cursorLow else cursorHigh;
    }

    method WriteCell(row: Byte, col: Byte, c: Byte, fg: Byte, bg: Byte)
      requires memory.Length == 0x1_0000
      modifies memory
      ensures Cells() == Put(old(Cells()), row, col, c, Color(fg, bg))
    {
      ghost var before := memory[..];
      var offset: nat := 2 * CursorAt(row, col);
      var color := Color(fg, bg);
      MemSet(memory, offset, c, 1);
      MemSet(memory, offset + 1, color, 1);
      TwoBytes(before, offset, c, color);
    }

    method SetCursor(r: Byte, c: Byte)
      modifies this
      ensures Cursor() == CursorAt(r, c)
    {
      var pos := CursorAt(r, c);
      Out(0x3D4, 0x0F);
      Out(0x3D5, pos % 0x100);
      Out(0x3D4, 0x0E);
      Out(0x3D5, pos / 0x100);
    }

    method GetCursor() returns (row: Byte, col: Byte)
      modifies this
      ensures row == RowOf(Cursor()) && col == ColumnOf(Cursor())
      ensures Cursor() == old(Cursor())
    {
      Out(0x3D4, 0x0F);
      var low := In(0x3D5);
      Out(0x3D4, 0x0E);
      var high := In(0x3D5);
      var pos := U16(low, high);
      row := pos / 80 % 0x100;
      col := pos % 80;
    }

    /** Every cell of the 80 by 25 screen becomes a grey space; the memory behind it stays. */
    method Clear()
      requires memory.Length == 0x1_0000
      modifies memory
      ensures forall k | 0 <= k < 0x1_0000 ::
        memory[k] == if k >= 4000 then old(memory[k]) else if k % 2 == 0 then 32 else Color(7, 0)
    {
      MemSet(memory, 0, 0, 4000);
      for row := 0 to 25
        invariant forall k | 0 <= k < 0x1_0000 && (k < 160 * row || k >= 4000) ::
          memory[k] == if k >= 4000 then old(memory[k]) else if k % 2 == 0 then 32 else Color(7, 0)
      {
        for col := 0 to 80
          invariant forall k | 0 <= k < 0x1_0000 && (k < 160 * row + 2 * col || k >= 4000) ::
            memory[k] == if k >= 4000 then old(memory[k]) else if k % 2 == 0 then 32 else Color(7, 0)
        {
          WriteCell(row, col, 32, 7, 0);
        }
      }
    }
  }
}
