/** The keyboard's static layout: the KeySpec record, the six row tables and
    the column-cursor arithmetic that places each key in the grid. */
module KeyLayout {

  /** Values of the Qt::Key enumeration used by the row tables. */
  const KeySpace := 0x20
  const KeyApostrophe := 0x27
  const KeyComma := 0x2c
  const KeyMinus := 0x2d
  const KeyPeriod := 0x2e
  const KeySlash := 0x2f
  const Key0 := 0x30
  const Key1 := 0x31
  const Key2 := 0x32
  const Key3 := 0x33
  const Key4 := 0x34
  const Key5 := 0x35
  const Key6 := 0x36
  const Key7 := 0x37
  const Key8 := 0x38
  const Key9 := 0x39
  const KeySemicolon := 0x3b
  const KeyEqual := 0x3d
  const KeyA := 0x41
  const KeyB := 0x42
  const KeyC := 0x43
  const KeyD := 0x44
  const KeyE := 0x45
  const KeyF := 0x46
  const KeyG := 0x47
  const KeyH := 0x48
  const KeyI := 0x49
  const KeyJ := 0x4a
  const KeyK := 0x4b
  const KeyL := 0x4c
  const KeyM := 0x4d
  const KeyN := 0x4e
  const KeyO := 0x4f
  const KeyP := 0x50
  const KeyQ := 0x51
  const KeyR := 0x52
  const KeyS := 0x53
  const KeyT := 0x54
  const KeyU := 0x55
  const KeyV := 0x56
  const KeyW := 0x57
  const KeyX := 0x58
  const KeyY := 0x59
  const KeyZ := 0x5a
  const KeyBracketLeft := 0x5b
  const KeyBackslash := 0x5c
  const KeyBracketRight := 0x5d
  const KeyQuoteLeft := 0x60
  const KeyEscape := 0x0100_0000
  const KeyTab := 0x0100_0001
  const KeyBackspace := 0x0100_0003
  const KeyReturn := 0x0100_0004
  const KeyInsert := 0x0100_0006
  const KeyDelete := 0x0100_0007
  const KeyPause := 0x0100_0008
  const KeyPrint := 0x0100_0009
  const KeyLeft := 0x0100_0012
  const KeyUp := 0x0100_0013
  const KeyRight := 0x0100_0014
  const KeyDown := 0x0100_0015
  const KeyShift := 0x0100_0020
  const KeyControl := 0x0100_0021
  const KeyMeta := 0x0100_0022
  const KeyAlt := 0x0100_0023
  const KeyCapsLock := 0x0100_0024
  const KeyScrollLock := 0x0100_0026
  const KeyF1 := 0x0100_0030
  const KeyF2 := 0x0100_0031
  const KeyF3 := 0x0100_0032
  const KeyF4 := 0x0100_0033
  const KeyF5 := 0x0100_0034
  const KeyF6 := 0x0100_0035
  const KeyF7 := 0x0100_0036
  const KeyF8 := 0x0100_0037
  const KeyF9 := 0x0100_0038
  const KeyF10 := 0x0100_0039
  const KeyF11 := 0x0100_003a
  const KeyF12 := 0x0100_003b
  const KeyMenu := 0x0100_0055

  /** One entry of a row table: caption, key code and grid spans. */
  datatype KeySpec = KeySpec(caption: string, qtKey: int, columnSpan: int, rowSpan: int)

  /** A brace-initialised KeySpec: fields left out take the member defaults. */
  function Spec(caption: string, qtKey: int := 0, columnSpan: int := 1, rowSpan: int := 1): KeySpec
  {
    KeySpec(caption, qtKey, columnSpan, rowSpan)
  }

  /** An entry that gives only a caption has code 0 and spans one cell. */
  lemma SpecDefaults(caption: string, qtKey: int)
    ensures Spec(caption) == KeySpec(caption, 0, 1, 1)
    ensures Spec(caption, qtKey) == KeySpec(caption, qtKey, 1, 1)
  {
  }

  function TopRow(): seq<KeySpec>
  {
    [ Spec("Esc", KeyEscape),
      Spec("F1", KeyF1), Spec("F2", KeyF2), Spec("F3", KeyF3), Spec("F4", KeyF4),
      Spec("F5", KeyF5), Spec("F6", KeyF6), Spec("F7", KeyF7), Spec("F8", KeyF8),
      Spec("F9", KeyF9), Spec("F10", KeyF10), Spec("F11", KeyF11), Spec("F12", KeyF12),
      Spec("PrtSc", KeyPrint), Spec("ScrLk", KeyScrollLock), Spec("Pause", KeyPause),
      Spec("Insert", KeyInsert), Spec("Delete", KeyDelete) ]
  }

  function NumberRow(): seq<KeySpec>
  {
    [ Spec("`", KeyQuoteLeft),
      Spec("1", Key1), Spec("2", Key2), Spec("3", Key3), Spec("4", Key4), Spec("5", Key5),
      Spec("6", Key6), Spec("7", Key7), Spec("8", Key8), Spec("9", Key9), Spec("0", Key0),
      Spec("-", KeyMinus), Spec("=", KeyEqual),
      Spec("Backspace", KeyBackspace, 2) ]
  }

  function QRow(): seq<KeySpec>
  {
    [ Spec("Tab", KeyTab, 2),
      Spec("Q", KeyQ), Spec("W", KeyW), Spec("E", KeyE), Spec("R", KeyR), Spec("T", KeyT),
      Spec("Y", KeyY), Spec("U", KeyU), Spec("I", KeyI), Spec("O", KeyO), Spec("P", KeyP),
      Spec("[", KeyBracketLeft), Spec("]", KeyBracketRight), Spec("\\", KeyBackslash, 2) ]
  }

  function ARow(): seq<KeySpec>
  {
    [ Spec("Caps", KeyCapsLock, 2),
      Spec("A", KeyA), Spec("S", KeyS), Spec("D", KeyD), Spec("F", KeyF), Spec("G", KeyG),
      Spec("H", KeyH), Spec("J", KeyJ), Spec("K", KeyK), Spec("L", KeyL),
      Spec(";", KeySemicolon), Spec("'", KeyApostrophe),
      Spec("Enter", KeyReturn, 3) ]
  }

  function ZRow(): seq<KeySpec>
  {
    [ Spec("Shift", KeyShift, 3),
      Spec("Z", KeyZ), Spec("X", KeyX), Spec("C", KeyC), Spec("V", KeyV), Spec("B", KeyB),
      Spec("N", KeyN), Spec("M", KeyM), Spec(",", KeyComma), Spec(".", KeyPeriod), Spec("/", KeySlash),
      Spec("Shift", KeyShift, 3) ]
  }

  function BottomRow(): seq<KeySpec>
  {
    [ Spec("Ctrl", KeyControl, 2),
      Spec("Win", KeyMeta),
      Spec("Alt", KeyAlt),
      Spec("Space", KeySpace, 6),
      Spec("Alt", KeyAlt),
      Spec("Win", KeyMeta),
      Spec("Menu", KeyMenu),
      Spec("Ctrl", KeyControl, 2),
      Spec("\U{2190}", KeyLeft), Spec("\U{2191}", KeyUp), Spec("\U{2193}", KeyDown), Spec("\U{2192}", KeyRight) ]
  }

  /** The rows the widget builds, top to bottom. */
  function BuiltInRows(): seq<seq<KeySpec>>
  {
    [TopRow(), NumberRow(), QRow(), ARow(), ZRow(), BottomRow()]
  }

  /** Where one key went in the grid (the arguments of addWidget) and the
      code it is bound to. */
  datatype Placement = Placement(qtKey: int, row: int, column: int, rowSpan: int, columnSpan: int)

  /** The column cursor after the first k keys of a row: the sum of their
      column spans. */
  function ColumnAt(row: seq<KeySpec>, k: int): int
    requires 0 <= k <= |row|
  {
    if k == 0 then 0 else ColumnAt(row, k - 1) + row[k - 1].columnSpan
  }

  /** The number of grid columns a row covers. */
  function RowWidth(row: seq<KeySpec>): int
  {
    ColumnAt(row, |row|)
  }

  /** The placements of the first k keys of row r, each key starting where
      the cursor stands. */
  function RowPlacements(r: int, row: seq<KeySpec>, k: int): seq<Placement>
    requires 0 <= k <= |row|
  {
    if k == 0 then []
    else
      RowPlacements(r, row, k - 1)
        + [Placement(row[k - 1].qtKey, r, ColumnAt(row, k - 1), row[k - 1].rowSpan, row[k - 1].columnSpan)]
  }

  /** The placements of the first n rows, row by row. */
  function GridPlacements(rows: seq<seq<KeySpec>>, n: int): seq<Placement>
    requires 0 <= n <= |rows|
  {
    if n == 0 then [] else GridPlacements(rows, n - 1) + RowPlacements(n - 1, rows[n - 1], |rows[n - 1]|)
  }

  /** maxColumns after the first n rows: the widest of them, 0 for none. */
  function WidestRow(rows: seq<seq<KeySpec>>, n: int): int
    requires 0 <= n <= |rows|
  {
    if n == 0 then 0
    else
      var w := WidestRow(rows, n - 1);
      var last := RowWidth(rows[n - 1]);
      if w >= last then w else last
  }

  /** The number of keys in the first r rows: where row r's keys start in
      the list of placements. */
  function KeysBefore(rows: seq<seq<KeySpec>>, r: int): nat
    requires 0 <= r <= |rows|
  {
    if r == 0 then 0 else KeysBefore(rows, r - 1) + |rows[r - 1]|
  }

  /** The key codes of a list of placements, in order. */
  function CodesOf(ps: seq<Placement>): (codes: seq<int>)
    ensures |codes| == |ps|
    ensures forall i :: 0 <= i < |ps| ==> codes[i] == ps[i].qtKey
  {
    if ps == [] then [] else CodesOf(ps[..|ps| - 1]) + [ps[|ps| - 1].qtKey]
  }

  /** Each of the first k keys of a row is placed in that row, at the column
      that is the sum of the spans of the keys before it, with its own code
      and spans. */
  lemma {:induction false} RowPlacementAt(r: int, row: seq<KeySpec>, k: int, i: int)
    requires 0 <= i < k <= |row|
    ensures |RowPlacements(r, row, k)| == k
    ensures RowPlacements(r, row, k)[i]
         == Placement(row[i].qtKey, r, ColumnAt(row, i), row[i].rowSpan, row[i].columnSpan)
  {
    if i < k - 1 {
      RowPlacementAt(r, row, k - 1, i);
    } else if k > 1 {
      RowPlacementAt(r, row, k - 1, 0);
    }
  }

  /** A row of k keys gives k placements. */
  lemma {:induction false} RowLength(r: int, row: seq<KeySpec>, k: int)
    requires 0 <= k <= |row|
    ensures |RowPlacements(r, row, k)| == k
  {
    if k > 0 {
      RowLength(r, row, k - 1);
    }
  }

  /** The first n rows give one placement per key. */
  lemma {:induction false} GridLength(rows: seq<seq<KeySpec>>, n: int)
    requires 0 <= n <= |rows|
    ensures |GridPlacements(rows, n)| == KeysBefore(rows, n)
  {
    if n > 0 {
      GridLength(rows, n - 1);
      RowLength(n - 1, rows[n - 1], |rows[n - 1]|);
    }
  }

  /** Every key of every row is placed, row after row: key i of row r is
      entry KeysBefore(rows, r) + i, in row r at its cursor column. */
  lemma {:induction false} GridPlacementAt(rows: seq<seq<KeySpec>>, n: int, r: int, i: int)
    requires 0 <= r < n <= |rows| && 0 <= i < |rows[r]|
    ensures var ps := GridPlacements(rows, n);
      && KeysBefore(rows, r) + i < |ps|
      && ps[KeysBefore(rows, r) + i]
         == Placement(rows[r][i].qtKey, r, ColumnAt(rows[r], i), rows[r][i].rowSpan, rows[r][i].columnSpan)
  {
    GridLength(rows, n - 1);
    RowLength(n - 1, rows[n - 1], |rows[n - 1]|);
    if r < n - 1 {
      GridPlacementAt(rows, n - 1, r, i);
    } else {
      RowPlacementAt(r, rows[r], |rows[r]|, i);
    }
  }

  /** With positive spans the cursor only moves right, so keys of a row do
      not overlap: a later key starts at or after the end of an earlier one. */
  lemma {:induction false} ColumnsIncrease(row: seq<KeySpec>, i: int, j: int)
    requires 0 <= i < j <= |row|
    requires forall k :: 0 <= k < |row| ==> row[k].columnSpan >= 1
    ensures ColumnAt(row, i) + row[i].columnSpan <= ColumnAt(row, j)
  {
    if j > i + 1 {
      ColumnsIncrease(row, i, j - 1);
    }
  }

  /** maxColumns starts at 0, is at least the width of every row seen, and is
      either still 0 or the width of one of them. */
  lemma {:induction false} WidestRowIsMax(rows: seq<seq<KeySpec>>, n: int)
    requires 0 <= n <= |rows|
    ensures forall r :: 0 <= r < n ==> RowWidth(rows[r]) <= WidestRow(rows, n)
    ensures WidestRow(rows, n) >= 0
    ensures WidestRow(rows, n) == 0 || exists r :: 0 <= r < n && RowWidth(rows[r]) == WidestRow(rows, n)
  {
    if n > 0 {
      WidestRowIsMax(rows, n - 1);
      if WidestRow(rows, n - 1) >= RowWidth(rows[n - 1]) {
        if WidestRow(rows, n) != 0 {
          var r :| 0 <= r < n - 1 && RowWidth(rows[r]) == WidestRow(rows, n - 1);
          assert RowWidth(rows[r]) == WidestRow(rows, n);
        }
      } else {
        assert RowWidth(rows[n - 1]) == WidestRow(rows, n);
      }
    }
  }

  /** The built-in rows are 18, 15, 16, 16, 16 and 19 columns wide, so the
      grid has 19 columns. */
  lemma BuiltInWidth()
    ensures RowWidth(TopRow()) == 18 && RowWidth(NumberRow()) == 15
    ensures RowWidth(QRow()) == 16 && RowWidth(ARow()) == 16
    ensures RowWidth(ZRow()) == 16 && RowWidth(BottomRow()) == 19
    ensures WidestRow(BuiltInRows(), 6) == 19
  {
    var top, num, q, a, z, bottom := TopRow(), NumberRow(), QRow(), ARow(), ZRow(), BottomRow();
    assert ColumnAt(top, 6) == 6 && ColumnAt(top, 12) == 12;
    assert ColumnAt(num, 7) == 7;
    assert ColumnAt(q, 7) == 8;
    assert ColumnAt(a, 7) == 8;
    assert ColumnAt(z, 6) == 8;
    assert ColumnAt(bottom, 6) == 12;
  }

  /** The two Shift keys are the 60th and the 71st placement of the built-in
      layout, both bound to the Shift code. */
  lemma BuiltInShiftTwice()
    ensures |GridPlacements(BuiltInRows(), 6)| == 83
    ensures CodesOf(GridPlacements(BuiltInRows(), 6))[59] == KeyShift
    ensures CodesOf(GridPlacements(BuiltInRows(), 6))[70] == KeyShift
  {
    var rows := BuiltInRows();
    assert KeysBefore(rows, 4) == 59 && KeysBefore(rows, 6) == 83;
    GridLength(rows, 6);
    GridPlacementAt(rows, 6, 4, 0);
    GridPlacementAt(rows, 6, 4, 11);
  }

  /** Shift, Ctrl, Alt and Win each appear twice in the built-in rows. */
  lemma SharedCodes()
    ensures ZRow()[0].qtKey == ZRow()[11].qtKey == KeyShift
    ensures BottomRow()[0].qtKey == BottomRow()[7].qtKey == KeyControl
    ensures BottomRow()[1].qtKey == BottomRow()[5].qtKey == KeyMeta
    ensures BottomRow()[2].qtKey == BottomRow()[4].qtKey == KeyAlt
  {
  }
}
