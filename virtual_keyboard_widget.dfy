/** The keyboard widget: it builds its cells from the row tables, keeps the
    press-count table, fans counts, colours and glows out to its cells, and
    installs or removes the global key-event filter. Each method is proved to
    move the widget's abstract state (Model) as the matching function of
    KeyboardModel does. */
module VirtualKeyboard {
  import opened Numbers
  import opened Colors
  import opened KeyButtons
  import opened KeyLayout
  import M = KeyboardModel

  /** One entry of the key-code to cell multi-hash. */
  datatype Binding = Binding(code: int, button: KeyButton)

  /** The maximum refreshHeatMap hands out: 1 for an empty table, otherwise
      the larger of 1 and the largest count (found as std::max_element does,
      by one pass over the table). */
  method MaxCount(counter: map<int, int>) returns (maxCount: int)
    ensures maxCount == M.HeatMax(counter)
  {
    maxCount := 1;
    if counter != map[] {
      assert (forall k :: k !in counter) ==> counter == map[];
      var first :| first in counter;
      var best := counter[first];
      var rest := counter.Keys - {first};
      while rest != {}
        invariant rest <= counter.Keys && first !in rest
        invariant exists k :: k in counter && k !in rest && counter[k] == best
        invariant forall k :: k in counter && k !in rest ==> counter[k] <= best
        decreases rest
      {
        assert (forall k :: k !in rest) ==> rest == {};
        var k :| k in rest;
        if best < counter[k] {
          best := counter[k];
        }
        rest := rest - {k};
      }
      maxCount := Max(1, best);
    }
    M.HeatMaxUnique(counter, maxCount);
  }

  /** The cells of a binding list. */
  function Buttons(bindings: seq<Binding>): set<KeyButton>
  {
    set i | 0 <= i < |bindings| :: bindings[i].button
  }

  /** The key codes of a binding list, in insertion order. */
  function KeyCodes(bindings: seq<Binding>): (codes: seq<int>)
    ensures |codes| == |bindings|
    ensures forall i :: 0 <= i < |bindings| ==> codes[i] == bindings[i].code
  {
    seq(|bindings|, i requires 0 <= i < |bindings| => bindings[i].code)
  }

  class VirtualKeyboardWidget {
    /** m_keyButtons, in insertion order. */
    var bindings: seq<Binding>
    /** m_heatCounter. */
    var heatCounter: map<int, int>
    var trackPhysicalKeyboard: bool
    var heatMapEnabled: bool
    var coldColor: Rgb
    var hotColor: Rgb
    var highlightColor: Rgb
    /** What the grid layout was given, one entry per addWidget call. */
    var placements: seq<Placement>
    /** The number of grid columns given a stretch factor (maxColumns). */
    var columnCount: int
    /** How often the global event filter was installed and removed. */
    ghost var installs: nat
    ghost var removes: nat

    function Cells(): set<KeyButton>
      reads this
    {
      Buttons(bindings)
    }

    function Codes(): (codes: seq<int>)
      reads this
      ensures |codes| == |bindings|
      ensures forall i :: 0 <= i < |bindings| ==> codes[i] == bindings[i].code
    {
      KeyCodes(bindings)
    }

    ghost function CellStates(): (states: seq<CellState>)
      reads this, Cells()
      ensures |states| == |bindings|
      ensures forall i :: 0 <= i < |bindings| ==> states[i] == bindings[i].button.State()
    {
      seq(|bindings|, i requires 0 <= i < |bindings| reads this, Cells() => bindings[i].button.State())
    }

    /** The widget's state as a value. */
    ghost function Model(): M.Board
      reads this, Cells()
    {
      M.Board(Codes(), CellStates(), heatCounter, trackPhysicalKeyboard, heatMapEnabled,
              coldColor, hotColor, highlightColor, installs, removes)
    }

    /** Every binding has a cell of its own, and every cell is valid. */
    ghost predicate CellsValid()
      reads this, Cells()
    {
      && (forall i, j :: 0 <= i < j < |bindings| ==> bindings[i].button != bindings[j].button)
      && (forall i :: 0 <= i < |bindings| ==> bindings[i].button.Valid())
    }

    ghost predicate Valid()
      reads this, Cells()
    {
      CellsValid() && M.Consistent(Model())
    }

    /** The fields no operation after construction changes. */
    twostate predicate LayoutKept()
      reads this
    {
      bindings == old(bindings) && placements == old(placements) && columnCount == old(columnCount)
    }

    constructor ()
      ensures Valid() && fresh(Cells())
      ensures placements == GridPlacements(BuiltInRows(), 6)
      ensures columnCount == WidestRow(BuiltInRows(), 6)
      ensures Model() == M.InitialBoard(CodesOf(placements))
    {
      bindings, heatCounter := [], map[];
      trackPhysicalKeyboard, heatMapEnabled := true, true;
      coldColor, hotColor, highlightColor := M.WidgetCold, M.WidgetHot, M.WidgetHighlight;
      placements, columnCount := [], 0;
      // The event filter is installed at the end of construction, as
      // tracking starts on; nothing reads the counts before then.
      installs, removes := 1, 0;
      new;
      AddRows(BuiltInRows());
      InitialModel();
    }

    /** The outer loop of the constructor: the rows top to bottom, each on
        the next grid row; then the widest row's column count is kept. */
    method AddRows(rows: seq<seq<KeySpec>>)
      requires Fresh() && bindings == [] && placements == []
      modifies this
      ensures Fresh() && fresh(Cells())
      ensures installs == old(installs) && removes == old(removes)
      ensures placements == GridPlacements(rows, |rows|)
      ensures columnCount == WidestRow(rows, |rows|)
    {
      var maxColumns := 0;
      var row := 0;
      while row < |rows|
        invariant 0 <= row <= |rows|
        invariant placements == GridPlacements(rows, row)
        invariant maxColumns == WidestRow(rows, row)
        invariant Fresh()
        invariant installs == old(installs) && removes == old(removes)
        invariant fresh(Cells())
      {
        var column := AddRow(row, rows[row]);
        maxColumns := Max(maxColumns, column);
        row := row + 1;
      }
      columnCount := maxColumns;
    }

    /** The end of construction: the model is the initial board. */
    lemma InitialModel()
      requires Fresh() && installs == 1 && removes == 0
      ensures Valid() && Model() == M.InitialBoard(CodesOf(placements))
    {
      var codes := CodesOf(placements);
      M.InitialBoardConsistent(codes);
      assert Codes() == codes;
      assert CellStates() == seq(|codes|, i => M.CreatedCell);
    }

    /** The inner loop of the constructor: the keys of one row, left to
        right, each at the column cursor, which then moves on by the key's
        span. Answers where the cursor ends. */
    method AddRow(row: int, specs: seq<KeySpec>) returns (column: int)
      requires Fresh()
      modifies this
      ensures Fresh() && columnCount == old(columnCount)
      ensures installs == old(installs) && removes == old(removes)
      ensures placements == old(placements) + RowPlacements(row, specs, |specs|)
      ensures column == RowWidth(specs)
      ensures fresh(Cells() - old(Cells()))
    {
      column := 0;
      var k := 0;
      while k < |specs|
        invariant 0 <= k <= |specs|
        invariant placements == old(placements) + RowPlacements(row, specs, k)
        invariant column == ColumnAt(specs, k)
        invariant Fresh() && columnCount == old(columnCount)
        invariant installs == old(installs) && removes == old(removes)
        invariant fresh(Cells() - old(Cells()))
      {
        var spec := specs[k];
        AddKey(row, column, spec);
        column := column + spec.columnSpan;
        k := k + 1;
      }
    }

    /** While the constructor runs: the cells built so far are new, valid,
        bound to the codes they were placed with, and in their created state;
        the table and the colours are still the initial ones. */
    ghost predicate Fresh()
      reads this, Cells()
    {
      && CellsValid()
      && |bindings| == |placements|
      && (forall i :: 0 <= i < |bindings| ==> bindings[i].code == placements[i].qtKey)
      && (forall i :: 0 <= i < |bindings| ==> bindings[i].button.State() == M.CreatedCell)
      && heatCounter == map[] && trackPhysicalKeyboard && heatMapEnabled
      && coldColor == M.WidgetCold && hotColor == M.WidgetHot && highlightColor == M.WidgetHighlight
    }

    /** addKey: a new cell with the widget's colours and white text, placed in
        the grid and bound to the spec's code after every earlier binding. */
    method AddKey(row: int, column: int, spec: KeySpec)
      requires CellsValid()
      modifies this
      ensures CellsValid()
      ensures |bindings| == |old(bindings)| + 1 && bindings[..|old(bindings)|] == old(bindings)
      ensures bindings[|old(bindings)|].code == spec.qtKey
      ensures fresh(bindings[|old(bindings)|].button)
      ensures bindings[|old(bindings)|].button.State()
           == NewCell.(cold := coldColor, hot := hotColor, highlight := highlightColor, text := White)
      ensures placements == old(placements) + [Placement(spec.qtKey, row, column, spec.rowSpan, spec.columnSpan)]
      ensures heatCounter == old(heatCounter) && columnCount == old(columnCount)
      ensures trackPhysicalKeyboard == old(trackPhysicalKeyboard) && heatMapEnabled == old(heatMapEnabled)
      ensures coldColor == old(coldColor) && hotColor == old(hotColor) && highlightColor == old(highlightColor)
      ensures installs == old(installs) && removes == old(removes)
    {
      var button := new KeyButton(spec.caption);
      button.SetHeatColors(coldColor, hotColor);
      button.SetHighlightColor(highlightColor);
      button.SetBaseTextColor(White);
      placements := placements + [Placement(spec.qtKey, row, column, spec.rowSpan, spec.columnSpan)];
      bindings := bindings + [Binding(spec.qtKey, button)];
    }

    /** trackPhysicalKeyboard(): the stored flag, which says whether the event
        filter is installed. */
    function TrackPhysicalKeyboard(): (enabled: bool)
      requires Valid()
      reads this, Cells()
      ensures enabled == Model().track
      ensures enabled <==> installs == removes + 1
      ensures !enabled <==> installs == removes
    {
      trackPhysicalKeyboard
    }

    /** heatMapEnabled(): the stored flag; while it is off every cell shows
        count 0. */
    function HeatMapEnabled(): (enabled: bool)
      requires Valid()
      reads this, Cells()
      ensures enabled == Model().heatMapEnabled
      ensures !enabled ==> forall i :: 0 <= i < |bindings| ==> bindings[i].button.heat == 0
    {
      heatMapEnabled
    }

    method SetTrackPhysicalKeyboard(enabled: bool)
      requires Valid()
      modifies this
      ensures Valid() && LayoutKept()
      ensures Model() == M.SetTrackPhysicalKeyboard(old(Model()), enabled)
    {
      if trackPhysicalKeyboard == enabled {
        return;
      }
      trackPhysicalKeyboard := enabled;
      if enabled {
        installs := installs + 1;
      } else {
        removes := removes + 1;
      }
      M.TrackingKeepsConsistent(old(Model()), enabled, M.OtherEvent);
    }

    /** refreshHeatMap: every cell gets the same maximum and its code's shown
        count, and the current heat colours. */
    method RefreshHeatMap()
      requires CellsValid() && M.Sound(Model())
      modifies Cells()
      ensures Valid()
      ensures Model() == M.Refresh(old(Model()))
    {
      var maxCount := MaxCount(heatCounter);
      ghost var before := Model();
      var i := 0;
      while i < |bindings|
        modifies Cells()
        invariant 0 <= i <= |bindings|
        invariant CellsValid()
        invariant forall j :: 0 <= j < i ==>
          bindings[j].button.State()
            == M.RefreshedCell(before.cells[j], M.ShownCount(before, bindings[j].code), maxCount, coldColor, hotColor)
        invariant forall j :: i <= j < |bindings| ==> bindings[j].button.State() == before.cells[j]
      {
        RefreshCell(i, maxCount);
        i := i + 1;
      }
      Refreshed(before, maxCount);
    }

    /** The end of refreshHeatMap: once every cell holds its refreshed state,
        the model is the refreshed board. */
    lemma Refreshed(before: M.Board, maxCount: int)
      requires CellsValid() && M.Sound(before) && Model().(cells := before.cells) == before
      requires maxCount == M.HeatMax(before.counter)
      requires forall j :: 0 <= j < |bindings| ==>
        bindings[j].button.State()
          == M.RefreshedCell(before.cells[j], M.ShownCount(before, bindings[j].code), maxCount, coldColor, hotColor)
      ensures Valid() && Model() == M.Refresh(before)
    {
      assert CellStates() == M.Refresh(before).cells;
      M.RefreshKeepsConsistent(before);
    }

    /** One pass of refreshHeatMap's loop: the cell of binding i gets its
        code's shown count, the maximum and the heat colours. */
    method RefreshCell(i: int, maxCount: int)
      requires 0 <= i < |bindings| && CellsValid()
      modifies bindings[i].button
      ensures CellsValid()
      ensures forall j :: 0 <= j < |bindings| && j != i ==> bindings[j].button.State() == old(bindings[j].button.State())
      ensures bindings[i].button.State()
           == M.RefreshedCell(old(bindings[i].button.State()),
                              if heatMapEnabled then M.Count(heatCounter, bindings[i].code) else 0,
                              maxCount, coldColor, hotColor)
    {
      var binding := bindings[i];
      var count := if heatMapEnabled then M.Count(heatCounter, binding.code) else 0;
      binding.button.SetHeat(count, maxCount);
      binding.button.SetHeatColors(coldColor, hotColor);
    }

    method SetHeatMapEnabled(enabled: bool)
      requires Valid()
      modifies this, Cells()
      ensures Valid() && LayoutKept()
      ensures Model() == M.SetHeatMapEnabled(old(Model()), enabled)
    {
      heatMapEnabled := enabled;
      RefreshHeatMap();
    }

    method SetColdColor(color: Rgb)
      requires Valid()
      modifies this, Cells()
      ensures Valid() && LayoutKept()
      ensures Model() == M.SetColdColor(old(Model()), color)
    {
      coldColor := color;
      RefreshHeatMap();
    }

    method SetHotColor(color: Rgb)
      requires Valid()
      modifies this, Cells()
      ensures Valid() && LayoutKept()
      ensures Model() == M.SetHotColor(old(Model()), color)
    {
      hotColor := color;
      RefreshHeatMap();
    }

    method SetHighlightColor(color: Rgb)
      requires Valid()
      modifies this, Cells()
      ensures Valid() && LayoutKept()
      ensures Model() == M.SetHighlightColor(old(Model()), color)
    {
      ghost var before := Model();
      highlightColor := color;
      var i := 0;
      while i < |bindings|
        modifies Cells()
        invariant 0 <= i <= |bindings| && LayoutKept()
        invariant CellsValid()
        invariant forall j :: 0 <= j < i ==> bindings[j].button.State() == before.cells[j].(highlight := color)
        invariant forall j :: i <= j < |bindings| ==> bindings[j].button.State() == before.cells[j]
      {
        HighlightCell(i, color);
        i := i + 1;
      }
      Highlighted(before, color);
    }

    /** One pass of setHighlightColor's loop. */
    method HighlightCell(i: int, color: Rgb)
      requires 0 <= i < |bindings| && CellsValid()
      modifies bindings[i].button
      ensures CellsValid()
      ensures forall j :: 0 <= j < |bindings| && j != i ==> bindings[j].button.State() == old(bindings[j].button.State())
      ensures bindings[i].button.State() == old(bindings[i].button.State()).(highlight := color)
    {
      bindings[i].button.SetHighlightColor(color);
    }

    /** The end of setHighlightColor: once every cell has the new highlight,
        the model is the board with the new highlight. */
    lemma Highlighted(before: M.Board, color: Rgb)
      requires CellsValid() && M.Consistent(before)
      requires Model().(cells := before.cells) == before.(highlight := color)
      requires forall j :: 0 <= j < |bindings| ==> bindings[j].button.State() == before.cells[j].(highlight := color)
      ensures Valid() && Model() == M.SetHighlightColor(before, color)
    {
      assert CellStates() == M.SetHighlightColor(before, color).cells;
      M.HighlightKeepsConsistent(before, color);
    }

    /** recordKey. */
    method RecordKey(qtKey: int)
      requires Valid()
      modifies this, Cells()
      ensures Valid() && LayoutKept()
      ensures Model() == M.RecordKey(old(Model()), qtKey)
    {
      if qtKey !in Codes() {
        return;
      }
      LightKey(qtKey);
      RefreshHeatMap();
    }

    /** The part of recordKey before the refresh: the count of a bound code
        goes up by one and the cell m_keyButtons.value answers for it glows. */
    method LightKey(qtKey: int)
      requires Valid() && qtKey in Codes()
      modifies this, Cells()
      ensures CellsValid() && M.Sound(Model()) && LayoutKept()
      ensures Model() == M.Light(old(Model()), qtKey)
    {
      ghost var before := Model();
      var last := M.LastIndexOf(Codes(), qtKey);
      heatCounter := heatCounter[qtKey := M.Count(heatCounter, qtKey) + 1];
      bindings[last].button.TriggerGlow();
      assert CellStates() == M.Light(before, qtKey).cells;
      assert Model() == M.Light(before, qtKey);
      M.LightingKeepsSound(before, qtKey);
    }

    /** setHeatSamples. */
    method SetHeatSamples(samples: map<int, int>)
      requires Valid()
      modifies this, Cells()
      ensures Valid() && LayoutKept()
      ensures Model() == M.SetHeatSamples(old(Model()), samples)
    {
      heatCounter := samples;
      RefreshHeatMap();
    }

    /** clearStatistics. */
    method ClearStatistics()
      requires Valid()
      modifies this, Cells()
      ensures Valid() && LayoutKept()
      ensures Model() == M.ClearStatistics(old(Model()))
    {
      heatCounter := map[];
      RefreshHeatMap();
    }

    /** eventFilter: records a key press while tracking, and always answers
        what the base class answers, so it never consumes the event itself. */
    method EventFilter(event: M.Event, baseResult: bool) returns (filtered: bool)
      requires Valid()
      modifies this, Cells()
      ensures Valid() && LayoutKept()
      ensures filtered == baseResult
      ensures Model() == M.EventFilter(old(Model()), event)
    {
      if !trackPhysicalKeyboard {
        return baseResult;
      }
      if event.KeyPress? {
        RecordKey(event.key);
      }
      return baseResult;
    }

    /** The destructor: removes the event filter if tracking is still on. */
    method Destroy()
      requires Valid()
      modifies this
      ensures LayoutKept()
      ensures Model() == M.Teardown(old(Model()))
      ensures installs == removes
    {
      if trackPhysicalKeyboard {
        removes := removes + 1;
      }
    }
  }
}
