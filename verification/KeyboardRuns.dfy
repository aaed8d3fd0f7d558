/** Whole runs of the keyboard interrupt handler: the buffer is a line editor's line, and the screen shows it. */
module KeyboardRuns {
  import opened Bytes
  import opened Framebuffer
  import opened Keyboard

  /** keyboard_isr on a scancode, and the two calls that switch input on and off. */
  datatype Op = Interrupted(scancode: Byte) | Activated | Deactivated

  function Step(s: State, op: Op): State {
    match op
    case Interrupted(scancode) => Interrupt(s, scancode)
    case Activated => s.(on := true)
    case Deactivated => s.(on := false)
  }

  function Run(s: State, ops: seq<Op>): State
    decreases |ops|
  {
    if ops == [] then s else Run(Step(s, ops[0]), ops[1..])
  }

  // ---- the line editor ----

  /** A line under edit, and the key that the next release commits. */
  datatype Editor = Editor(on: bool, line: seq<Byte>, last: Byte, pending: bool)

  function Enter(e: Editor): Editor {
    if e.last == NEWLINE then e.(line := [], on := false)
    else if e.last == BACKSPACE then if e.line == [] then e else e.(line := e.line[..|e.line| - 1])
    else if |e.line| >= 255 then e.(line := [])
    else e.(line := e.line + [e.last])
  }

  function EditKey(e: Editor, scancode: Byte): Editor {
    if !e.on then e.(line := [])
    else if KeyMap(scancode) != 0 then e.(last := KeyMap(scancode), pending := true)
    else if e.pending then Enter(e).(pending := false)
    else e
  }

  function Edit(e: Editor, op: Op): Editor {
    match op
    case Interrupted(scancode) => EditKey(e, scancode)
    case Activated => e.(on := true)
    case Deactivated => e.(on := false)
  }

  function EditRun(e: Editor, ops: seq<Op>): Editor
    decreases |ops|
  {
    if ops == [] then e else EditRun(Edit(e, ops[0]), ops[1..])
  }

  /** The driver's buffer, up to its index, is the editor's line. */
  ghost predicate Tracks(s: State, e: Editor) {
    && s.on == e.on && s.last == e.last && s.make == e.pending
    && s.index == |e.line| && s.buffer[..s.index] == e.line
    && (forall k | 0 <= k < |e.line| :: e.line[k] != 0)
    && (s.make ==> s.last != 0)
  }

  /** Arrow keys change neither the buffer nor the index. */
  lemma {:induction false} ArrowKeepsLine(s: State, scancode: Byte)
    ensures Arrow(s, scancode) == s.(cursor := Arrow(s, scancode).cursor)
  {
  }

  /** What committing a key does to the line buffer. */
  ghost predicate Typed(s: State, t: State) {
    && t.last == s.last && t.on == (s.on && s.last != NEWLINE)
    && t.index == (if s.last == NEWLINE then 0
                   else if s.last != BACKSPACE then NextIndex(s.index)
                   else if s.index == 0 then 0 else s.index - 1)
    && t.buffer == (if s.last == NEWLINE then s.buffer[s.index := 0]
                    else if s.last != BACKSPACE then s.buffer[s.index := s.last] else s.buffer)
  }

  lemma {:induction false} CommitTypes(s: State)
    ensures Typed(s, Commit(s))
  {
  }

  lemma {:induction false} TypedTracks(s: State, t: State, e: Editor)
    requires Tracks(s, e) && s.make && Typed(s, t)
    ensures Tracks(t.(make := false), Enter(e).(pending := false))
  {
    if s.last == BACKSPACE {
      assert s.index > 0 ==> t.buffer[..s.index - 1] == e.line[..|e.line| - 1];
    } else if s.last != NEWLINE && s.index < 255 {
      assert t.buffer[..s.index + 1] == s.buffer[..s.index] + [s.last];
    }
  }

  lemma {:induction false} CommitTracks(s: State, e: Editor)
    requires Tracks(s, e) && s.make
    ensures Tracks(Commit(s).(make := false), Enter(e).(pending := false))
  {
    CommitTypes(s);
    TypedTracks(s, Commit(s), e);
  }

  lemma {:induction false} StepTracks(s: State, e: Editor, op: Op)
    requires Tracks(s, e)
    ensures Tracks(Step(s, op), Edit(e, op))
  {
    if op.Interrupted? && s.on {
      var t := if s.index == 0 then s.(buffer := Zeros(256)) else s;
      assert s.index == 0 ==> t.buffer[..0] == e.line;
      if KeyMap(op.scancode) == 0 && s.make {
        CommitTracks(t, e);
      }
      ArrowKeepsLine(Type(t, op.scancode), op.scancode);
    }
  }

  /** For every sequence of scancodes and of switching input on and off, the buffer is what the line
      editor makes of the committed keys. */
  lemma {:induction false} RunTracks(s: State, e: Editor, ops: seq<Op>)
    requires Tracks(s, e)
    ensures Tracks(Run(s, ops), EditRun(e, ops))
    decreases |ops|
  {
    if ops != [] {
      StepTracks(s, e, ops[0]);
      RunTracks(Step(s, ops[0]), Edit(e, ops[0]), ops[1..]);
    }
  }

  // ---- handing the line over ----

  /** The bytes before the first zero. */
  function CString(b: seq<Byte>): seq<Byte> {
    if b == [] || b[0] == 0 then [] else [b[0]] + CString(b[1..])
  }

  lemma {:induction false} CStringIs(b: seq<Byte>, line: seq<Byte>)
    requires |line| < |b| && b[..|line|] == line && b[|line|] == 0
    requires forall k | 0 <= k < |line| :: line[k] != 0
    ensures CString(b) == line
  {
    if line != [] {
      assert b[0] == line[0];
      assert b[1..][..|line| - 1] == line[1..];
      CStringIs(b[1..], line[1..]);
      assert line == [line[0]] + line[1..];
    }
  }

  /** When the Enter key is released, input goes off and the buffer, read as a C string, is the line. */
  lemma {:induction false} EnterDelivers(s: State, e: Editor, scancode: Byte)
    requires Tracks(s, e) && s.on && s.make && s.last == NEWLINE && KeyMap(scancode) == 0
    ensures !Interrupt(s, scancode).on && CString(Interrupt(s, scancode).buffer) == e.line
  {
    var t := if s.index == 0 then s.(buffer := Zeros(256)) else s;
    var r := Interrupt(s, scancode);
    ArrowKeepsLine(Commit(t).(make := false), scancode);
    assert r.buffer == t.buffer[t.index := 0];
    assert r.buffer[..t.index] == e.line;
    CStringIs(r.buffer, e.line);
  }

  /** No operation of the run is an interrupt handled with input on. */
  predicate Undisturbed(s: State, ops: seq<Op>)
    decreases |ops|
  {
    ops == [] || (!(ops[0].Interrupted? && s.on) && Undisturbed(Step(s, ops[0]), ops[1..]))
  }

  /** Until an interrupt is handled with input on, whatever else happens, the delivered buffer stays. */
  lemma {:induction false} LineStays(s: State, ops: seq<Op>)
    requires Undisturbed(s, ops)
    ensures Run(s, ops).buffer == s.buffer
    decreases |ops|
  {
    if ops != [] {
      LineStays(Step(s, ops[0]), ops[1..]);
    }
  }

  // ---- the screen ----

  /** The line starts at cell start, the cursor is right behind it, and its cells show the buffer. */
  ghost predicate Shown(s: State, start: nat) {
    && s.cursor == start + s.index <= 20400
    && forall k | 0 <= k < s.index :: s.cells[2 * (start + k)] == s.buffer[k]
  }

  /** Where the line starts after a step: an empty line starts at the cursor. */
  function NextStart(s: State, start: nat): nat {
    if s.index == 0 then s.cursor else start
  }

  lemma {:induction false} CursorSplit(pos: Word)
    requires pos < 20400
    ensures RowOf(pos) == pos / 80 && RowOf(pos) < 255
    ensures CursorAt(RowOf(pos), ColumnOf(pos)) == pos
    ensures ColumnOf(pos) < 79 ==> CursorAt(RowOf(pos), ColumnOf(pos) + 1) == pos + 1
    ensures ColumnOf(pos) == 79 ==> CursorAt(RowOf(pos) + 1, 0) == pos + 1
    ensures ColumnOf(pos) > 0 ==> CursorAt(RowOf(pos), ColumnOf(pos) - 1) == pos - 1
    ensures ColumnOf(pos) == 0 && pos > 0 ==> RowOf(pos) > 0 && CursorAt(RowOf(pos) - 1, 79) == pos - 1
  {
  }

  /** The byte pairs of the cells after cell number pos got a character. */
  function PutAt(cells: Cells, pos: nat, c: Byte): Cells
    requires pos < 20656
  {
    Patch(cells, 2 * pos, [c, Color(0x0F, 0)])
  }

  /** Putting a character at the cursor's row and column puts it at the cursor's cell. */
  lemma {:induction false} PutAtCursor(cells: Cells, pos: Word, c: Byte)
    requires pos < 20400
    ensures Put(cells, RowOf(pos), ColumnOf(pos), c, Color(0x0F, 0)) == PutAt(cells, pos, c)
  {
    CursorSplit(pos);
  }

  /** What committing a key does, in cell numbers instead of rows and columns. */
  lemma {:induction false} BackspaceLinear(s: State)
    requires 0 < s.cursor < 20400 && s.last == BACKSPACE && s.index > 0
    ensures Commit(s) == s.(index := s.index - 1, cursor := s.cursor - 1, cells := PutAt(s.cells, s.cursor - 1, SPACE))
  {
    CursorSplit(s.cursor);
  }

  lemma {:induction false} CharLinear(s: State)
    requires s.cursor < 20400 && s.last != NEWLINE && s.last != BACKSPACE
    ensures Commit(s) == s.(buffer := s.buffer[s.index := s.last], index := NextIndex(s.index),
                            cursor := s.cursor + 1, cells := PutAt(s.cells, s.cursor, s.last))
  {
    var row, col := RowOf(s.cursor), ColumnOf(s.cursor);
    CursorSplit(s.cursor);
    PutAtCursor(s.cells, s.cursor, s.last);
    assert CursorAt(if col == 79 then row + 1 else row, if col == 79 then 0 else col + 1) == s.cursor + 1;
  }

  lemma {:induction false} CharShown(s: State, start: nat)
    requires Shown(s, start) && s.cursor < 20400
    ensures var t := s.(buffer := s.buffer[s.index := s.last], index := NextIndex(s.index),
                        cursor := s.cursor + 1, cells := PutAt(s.cells, s.cursor, s.last));
            Shown(t, NextStart(t, start)) && forall b | 0 <= b < 2 * start :: t.cells[b] == s.cells[b]
  {
  }

  lemma {:induction false} BackspaceShown(s: State, start: nat)
    requires Shown(s, start) && s.cursor < 20400 && s.index > 0
    ensures var t := s.(index := s.index - 1, cursor := s.cursor - 1, cells := PutAt(s.cells, s.cursor - 1, SPACE));
            Shown(t, NextStart(t, start)) && forall b | 0 <= b < 2 * start :: t.cells[b] == s.cells[b]
  {
  }

  lemma {:induction false} NewlineLinear(s: State)
    requires s.cursor < 20400 && s.last == NEWLINE
    ensures Commit(s).index == 0 && Commit(s).cells == s.cells && s.cursor <= Commit(s).cursor <= 20400
  {
    CursorSplit(s.cursor);
  }

  /** Committing a key keeps the screen right, through row wraps and through backspaces into the row
      above, and writes no cell in front of the line. */
  lemma {:induction false} CommitShown(s: State, start: nat)
    requires Shown(s, start) && s.cursor < 20400
    ensures Shown(Commit(s), NextStart(Commit(s), start))
    ensures start <= NextStart(Commit(s), start) && forall b | 0 <= b < 2 * start :: Commit(s).cells[b] == s.cells[b]
  {
    if s.last == NEWLINE {
      NewlineLinear(s);
    } else if s.last != BACKSPACE {
      CharLinear(s);
      CharShown(s, start);
    } else if s.index > 0 {
      BackspaceLinear(s);
      BackspaceShown(s, start);
    }
  }

  lemma {:induction false} TypeShown(s: State, start: nat, scancode: Byte)
    requires Shown(s, start) && s.cursor < 20400
    ensures Shown(Type(s, scancode), NextStart(Type(s, scancode), start))
    ensures start <= NextStart(Type(s, scancode), start)
    ensures forall b | 0 <= b < 2 * start :: Type(s, scancode).cells[b] == s.cells[b]
  {
    if KeyMap(scancode) == 0 && s.make {
      CommitShown(s, start);
    }
  }

  /** The run may go on: the cursor is in a row before 255 (anywhere on the 25-row screen will do), and the
      key is no arrow. */
  predicate Plain(s: State, op: Op) {
    s.cursor < 20400 && (op.Interrupted? ==> !IsArrow(op.scancode))
  }

  lemma {:induction false} StepShown(s: State, start: nat, op: Op)
    requires Shown(s, start) && Plain(s, op)
    ensures Shown(Step(s, op), NextStart(Step(s, op), start))
    ensures start <= NextStart(Step(s, op), start)
    ensures forall b | 0 <= b < 2 * start :: Step(s, op).cells[b] == s.cells[b]
  {
    if op.Interrupted? && s.on {
      var t := if s.index == 0 then s.(buffer := Zeros(256)) else s;
      TypeShown(t, start, op.scancode);
    }
  }

  predicate PlainRun(s: State, ops: seq<Op>)
    decreases |ops|
  {
    ops == [] || (Plain(s, ops[0]) && PlainRun(Step(s, ops[0]), ops[1..]))
  }

  function StartRun(s: State, start: nat, ops: seq<Op>): nat
    decreases |ops|
  {
    if ops == [] then start else StartRun(Step(s, ops[0]), NextStart(Step(s, ops[0]), start), ops[1..])
  }

  /** Over such a run the cursor and the cells stay right, the line never starts further in front, and
      nothing in front of where it started is written. */
  lemma {:induction false} RunShown(s: State, start: nat, ops: seq<Op>)
    requires Shown(s, start) && PlainRun(s, ops)
    ensures Shown(Run(s, ops), StartRun(s, start, ops))
    ensures start <= StartRun(s, start, ops) && forall b | 0 <= b < 2 * start :: Run(s, ops).cells[b] == s.cells[b]
    decreases |ops|
  {
    if ops != [] {
      StepShown(s, start, ops[0]);
      RunShown(Step(s, ops[0]), NextStart(Step(s, ops[0]), start), ops[1..]);
    }
  }

  /** In every run without arrow keys, line buffer, cursor and screen agree: the cursor is as far behind
      the line's start as the edited line is long, and the cells from there on show that line. */
  lemma {:induction false} ScreenShowsLine(s: State, e: Editor, ops: seq<Op>)
    requires Tracks(s, e) && e.line == [] && s.cursor <= 20400 && PlainRun(s, ops)
    ensures var r, line, start := Run(s, ops), EditRun(e, ops).line, StartRun(s, s.cursor, ops);
            && |line| < 256 && r.buffer[..|line|] == line
            && r.cursor == start + |line| <= 20400
            && forall k | 0 <= k < |line| :: r.cells[2 * (start + k)] == line[k]
  {
    RunTracks(s, e, ops);
    RunShown(s, s.cursor, ops);
    var r := Run(s, ops);
    assert forall k | 0 <= k < r.index :: r.buffer[..r.index][k] == r.buffer[k];
  }
}
