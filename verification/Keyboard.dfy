/** keyboard.c: the keyboard interrupt handler as a step function over scancodes, and the driver that runs it. */
module Keyboard {
  import opened Bytes
  import opened StdMem
  import opened Framebuffer

  const NEWLINE: Byte := 10
  const BACKSPACE: Byte := 8
  const SPACE: Byte := 32
  const UP: Byte := 0x48
  const DOWN: Byte := 0x50
  const LEFT: Byte := 0x4B
  const RIGHT: Byte := 0x4D

  function Keys0(): (s: seq<Byte>)
    ensures |s| == 16
  {
    [0, 0x1B, 49, 50, 51, 52, 53, 54, 55, 56, 57, 48, 45, 61, 8, 9]
  }

  function Keys1(): (s: seq<Byte>)
    ensures |s| == 16
  {
    [113, 119, 101, 114, 116, 121, 117, 105, 111, 112, 91, 93, 10, 0, 97, 115]
  }

  function Keys2(): (s: seq<Byte>)
    ensures |s| == 16
  {
    [100, 102, 103, 104, 106, 107, 108, 59, 39, 96, 0, 92, 122, 120, 99, 118]
  }

  function Keys3(): (s: seq<Byte>)
    ensures |s| == 16
  {
    [98, 110, 109, 44, 46, 47, 0, 42, 0, 32, 0, 0, 0, 0, 0, 0]
  }

  /** keyboard_scancode_1_to_ascii_map: 0 for every key release and for keys without a character. */
  function KeyMap(scancode: Byte): Byte {
    if scancode < 16 then Keys0()[scancode]
    else if scancode < 32 then Keys1()[scancode - 16]
    else if scancode < 48 then Keys2()[scancode - 32]
    else if scancode < 64 then Keys3()[scancode - 48]
    else if scancode == 0x4A then 45
    else if scancode == 0x4E then 43
    else 0
  }

  predicate IsArrow(scancode: Byte) {
    scancode == UP || scancode == DOWN || scancode == LEFT || scancode == RIGHT
  }

  type Line = s: seq<Byte> | |s| == 256 witness Zeros(256)

  /** keyboard_state, the two statics of keyboard_isr, and the screen. */
  datatype State = State(on: bool, index: Byte, buffer: Line, last: Byte, make: bool, cells: Cells, cursor: Word)

  // ---- one interrupt ----

  /** buffer_index++ in 8 bits. */
  function NextIndex(i: Byte): Byte {
    if i == 255 then 0 else i + 1
  }

  /** A row number passed as a uint8_t. */
  function Cut8(x: int): (b: Byte)
    ensures 0 <= x < 0x100 ==> b == x
  {
    x % 0x100
  }

  function Move(s: State, row: int, col: Byte): State {
    s.(cursor := CursorAt(Cut8(row), col))
  }

  function Show(s: State, row: int, col: Byte, c: Byte): State {
    s.(cells := Put(s.cells, Cut8(row), col, c, Color(0x0F, 0)))
  }

  /** A key release commits the pending key. */
  function Commit(s: State): State {
    var row, col := RowOf(s.cursor), ColumnOf(s.cursor);
    if s.last == NEWLINE then
      Move(s, row + 1, 0).(buffer := s.buffer[s.index := 0], index := 0, on := false)
    else if s.last == BACKSPACE then
      if s.index == 0 then s
      else
        var t := s.(index := s.index - 1);
        if col == 0 then if row > 0 then Show(Move(t, row - 1, 79), row - 1, 79, SPACE) else t
        else Show(Move(t, row, col - 1), row, col - 1, SPACE)
    else
      var t := Show(s.(buffer := s.buffer[s.index := s.last], index := NextIndex(s.index)), row, col, s.last);
      if col == 79 then Move(t, row + 1, 0) else Move(t, row, col + 1)
  }

  /** The arrow keys move the cursor and nothing else. */
  function Arrow(s: State, scancode: Byte): State {
    var row, col := RowOf(s.cursor), ColumnOf(s.cursor);
    var first := Cut8(row - s.index / 80);
    if scancode == RIGHT then
      if s.index > 79 then
        if row < first then s
        else if col == 79 then if row < 24 then Move(s, row + 1, 0) else s
        else Move(s, row, col + 1)
      else Move(s, row, if col < s.index then col + 1 else col)
    else if scancode == LEFT then
      if s.index > 80 then
        if row == first then s
        else if col == 0 then if row > 0 then Move(s, row - 1, 79) else s
        else Move(s, row, col - 1)
      else Move(s, row, if col > 0 then col - 1 else col)
    else if scancode == UP || scancode == DOWN then Move(s, row, col)
    else s
  }

  function Type(s: State, scancode: Byte): State {
    var c := KeyMap(scancode);
    if c != 0 then s.(last := c, make := true)
    else if s.make then Commit(s).(make := false)
    else s
  }

  function Interrupt(s: State, scancode: Byte): State {
    if !s.on then s.(index := 0)
    else
      var t := if s.index == 0 then s.(buffer := Zeros(256)) else s;
      Arrow(Type(t, scancode), scancode)
  }

  // ---- the driver ----

  class Driver {
    var inputOn: bool
    var bufferIndex: Byte
    const keyboardBuffer: array<Byte>
    var lastKeyPressed: Byte
    var makeCode: bool
    const screen: Screen

    ghost predicate Valid() {
      keyboardBuffer.Length == 256 && screen.memory.Length == 0x1_0000 && keyboardBuffer != screen.memory
    }

    ghost function Abs(): State
      requires Valid()
      reads this, keyboardBuffer, screen, screen.memory
    {
      State(inputOn, bufferIndex, keyboardBuffer[..], lastKeyPressed, makeCode, screen.Cells(), screen.Cursor())
    }

    constructor (screen: Screen)
      requires screen.memory.Length == 0x1_0000
      ensures Valid() && this.screen == screen && fresh(keyboardBuffer)
      ensures Abs() == State(false, 0, Zeros(256), 0, false, screen.Cells(), screen.Cursor())
    {
      inputOn, bufferIndex, lastKeyPressed, makeCode := false, 0, 0, false;
      keyboardBuffer := new Byte[256](_ => 0);
      this.screen := screen;
      new;
      assert keyboardBuffer[..] == Zeros(256);
    }

    method Activate()
      requires Valid()
      modifies this`inputOn
      ensures Abs() == old(Abs()).(on := true)
    {
      inputOn := true;
    }

    method Deactivate()
      requires Valid()
      modifies this`inputOn
      ensures Abs() == old(Abs()).(on := false)
    {
      inputOn := false;
    }

    method GetBuffer(buf: array<Byte>)
      requires Valid() && buf != keyboardBuffer && buf.Length >= 256
      modifies buf
      ensures buf[..256] == old(Abs()).buffer && buf[256..] == old(buf[256..])
    {
      MemCpy(buf, 0, keyboardBuffer[..], 256);
      assert buf[..256] == keyboardBuffer[..];
    }

    /** framebuffer_set_cursor with an 8-bit row. */
    method MoveTo(row: int, col: Byte)
      requires Valid()
      modifies screen
      ensures Abs() == Move(old(Abs()), row, col)
    {
      screen.SetCursor(Cut8(row), col);
    }

    method ShowAt(row: int, col: Byte, c: Byte)
      requires Valid()
      modifies screen.memory
      ensures Abs() == Show(old(Abs()), row, col, c)
    {
      screen.WriteCell(Cut8(row), col, c, 0x0F, 0);
    }

    method CommitKey()
      requires Valid()
      modifies this`inputOn, this`bufferIndex, keyboardBuffer, screen, screen.memory
      ensures Abs() == Commit(old(Abs()))
    {
      if lastKeyPressed == NEWLINE {
        var row, _ := screen.GetCursor();
        keyboardBuffer[bufferIndex] := 0;
        bufferIndex := 0;
        MoveTo((row as int) + 1, 0);
        Deactivate();
      } else if lastKeyPressed == BACKSPACE {
        Backspace();
      } else {
        TypeChar();
      }
    }

    method Backspace()
      requires Valid() && lastKeyPressed == BACKSPACE
      modifies this`bufferIndex, screen, screen.memory
      ensures Abs() == Commit(old(Abs()))
    {
      var row, col := screen.GetCursor();
      if bufferIndex > 0 {
        bufferIndex := bufferIndex - 1;
        assert Abs() == old(Abs()).(index := bufferIndex);
        if col == 0 {
          if row > 0 {
            MoveTo(row - 1, 79);
            ShowAt(row - 1, 79, SPACE);
          }
        } else {
          MoveTo(row, col - 1);
          ShowAt(row, col - 1, SPACE);
        }
      }
    }

    method TypeChar()
      requires Valid() && lastKeyPressed != NEWLINE && lastKeyPressed != BACKSPACE
      modifies this`bufferIndex, keyboardBuffer, screen, screen.memory
      ensures Abs() == Commit(old(Abs()))
    {
      AppendKey();
      var row, col := screen.GetCursor();
      ShowAt(row, col, lastKeyPressed);
      if col == 79 {
        MoveTo((row as int) + 1, 0);
      } else {
        MoveTo(row, col + 1);
      }
    }

    method AppendKey()
      requires Valid()
      modifies this`bufferIndex, keyboardBuffer
      ensures var s := old(Abs());
              Abs() == s.(buffer := s.buffer[s.index := s.last], index := NextIndex(s.index))
    {
      keyboardBuffer[bufferIndex] := lastKeyPressed;
      bufferIndex := NextIndex(bufferIndex);
    }

    method RightKey()
      requires Valid()
      modifies screen
      ensures Abs() == Arrow(old(Abs()), RIGHT)
    {
      var row, col := screen.GetCursor();
      var first := Cut8(row - bufferIndex / 80);
      if bufferIndex > 79 {
        if row >= first {
          if col == 79 {
            if row < 24 {
              MoveTo(row + 1, 0);
            }
          } else {
            MoveTo(row, col + 1);
          }
        }
      } else if col < bufferIndex {
        MoveTo(row, col + 1);
      } else {
        MoveTo(row, col);
      }
    }

    method LeftKey()
      requires Valid()
      modifies screen
      ensures Abs() == Arrow(old(Abs()), LEFT)
    {
      var row, col := screen.GetCursor();
      var first := Cut8(row - bufferIndex / 80);
      if bufferIndex > 80 {
        if row != first {
          if col == 0 {
            if row > 0 {
              MoveTo(row - 1, 79);
            }
          } else {
            MoveTo(row, col - 1);
          }
        }
      } else if col > 0 {
        MoveTo(row, col - 1);
      } else {
        MoveTo(row, col);
      }
    }

    method ArrowKey(scancode: Byte)
      requires Valid()
      modifies screen
      ensures Abs() == Arrow(old(Abs()), scancode)
    {
      if scancode == RIGHT {
        RightKey();
      } else if scancode == LEFT {
        LeftKey();
      } else if scancode == UP || scancode == DOWN {
        var row, col := screen.GetCursor();
        MoveTo(row, col);
      }
    }

    /** keyboard_isr, given the byte it reads from the keyboard's data port. */
    method Isr(scancode: Byte)
      requires Valid()
      modifies this, keyboardBuffer, screen, screen.memory
      ensures Abs() == Interrupt(old(Abs()), scancode)
    {
      if !inputOn {
        bufferIndex := 0;
      } else {
        var c := KeyMap(scancode);
        if bufferIndex == 0 {
          MemSet(keyboardBuffer, 0, 0, 256);
          assert keyboardBuffer[..] == Zeros(256);
        }
        if c != 0 {
          lastKeyPressed := c;
          makeCode := true;
        } else if makeCode {
          CommitKey();
          makeCode := false;
        }
        ArrowKey(scancode);
      }
    }
  }
}
