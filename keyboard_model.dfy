/** The observable state of the keyboard widget as a value, and what each of
    its operations does to it. The widget class is proved against these
    functions; the properties of the widget are proved about them here. */
module KeyboardModel {
  import opened Colors
  import opened KeyButtons

  /** The widget's own colour defaults, pushed to every cell it creates. */
  const WidgetCold: Rgb := Rgb(18, 26, 38)
  const WidgetHot: Rgb := Rgb(126, 192, 255)
  const WidgetHighlight: Rgb := Rgb(255, 65, 130)

  /** What the event filter can tell about an event. */
  datatype Event = KeyPress(key: int) | OtherEvent

  /** The widget state: cells[i] is the cell bound to codes[i], in the order
      the bindings were inserted; counter is the press-count table; installs
      and removes count the global event-filter installations and removals. */
  datatype Board = Board(
    codes: seq<int>,
    cells: seq<CellState>,
    counter: map<int, int>,
    track: bool,
    heatMapEnabled: bool,
    cold: Rgb,
    hot: Rgb,
    highlight: Rgb,
    installs: nat,
    removes: nat)

  predicate WellFormed(b: Board)
  {
    |b.codes| == |b.cells|
  }

  /** The event filter is installed exactly while tracking is on. */
  predicate FilterBalanced(b: Board)
  {
    b.installs - b.removes == if b.track then 1 else 0
  }

  /** QHash::value(code, 0) on the count table. */
  function Count(counter: map<int, int>, code: int): int
  {
    if code in counter then counter[code] else 0
  }

  /** The count a cell bound to code is shown with: its count, or 0 while the
      heat map is off. */
  function ShownCount(b: Board, code: int): int
  {
    if b.heatMapEnabled then Count(b.counter, code) else 0
  }

  /** What the cells show agrees with the table and the switches: each cell
      has its code's shown count, the table's heat maximum and the widget's
      heat colours. */
  ghost predicate InSync(b: Board)
    requires WellFormed(b)
  {
    forall i :: 0 <= i < |b.cells| ==>
      && b.cells[i].heat == ShownCount(b, b.codes[i])
      && b.cells[i].heatMax == HeatMax(b.counter)
      && b.cells[i].cold == b.cold && b.cells[i].hot == b.hot
  }

  /** Every cell valid and the filter balanced; what a refresh needs. */
  predicate Sound(b: Board)
  {
    && WellFormed(b)
    && (forall i :: 0 <= i < |b.cells| ==> CellOk(b.cells[i]))
    && FilterBalanced(b)
  }

  /** The invariant the widget keeps. */
  ghost predicate Consistent(b: Board)
  {
    Sound(b) && InSync(b)
  }

  /** m is the heat maximum of the table: at least 1, at least every count,
      and either 1 or one of the counts. */
  ghost predicate IsHeatMax(counter: map<int, int>, m: int)
  {
    && m >= 1
    && (forall k :: k in counter ==> counter[k] <= m)
    && (m == 1 || exists k :: k in counter && counter[k] == m)
  }

  /** The largest count of a non-empty table (std::max_element). */
  ghost function LargestCount(counter: map<int, int>): (m: int)
    requires counter != map[]
    ensures exists k :: k in counter && counter[k] == m
    ensures forall k :: k in counter ==> counter[k] <= m
    decreases |counter|
  {
    assert (forall k :: k !in counter) ==> counter == map[];
    var k :| k in counter;
    var rest := counter - {k};
    assert forall j :: j in counter && j != k ==> j in rest;
    if rest == map[] then
      counter[k]
    else
      var m := LargestCount(rest);
      if counter[k] >= m then counter[k] else m
  }

  /** The maximum refreshHeatMap pushes to every cell: 1 for an empty table,
      otherwise the larger of 1 and the largest count. */
  ghost function HeatMax(counter: map<int, int>): (m: int)
    ensures IsHeatMax(counter, m)
    ensures counter == map[] ==> m == 1
  {
    if counter == map[] then 1
    else
      var top := LargestCount(counter);
      if top >= 1 then top else 1
  }

  /** At most one value satisfies IsHeatMax, so any computation of it agrees
      with HeatMax. */
  lemma HeatMaxUnique(counter: map<int, int>, m: int)
    requires IsHeatMax(counter, m)
    ensures m == HeatMax(counter)
  {
    var h := HeatMax(counter);
    if m != 1 {
      var k :| k in counter && counter[k] == m;
      assert m <= h;
    }
    if h != 1 {
      var k :| k in counter && counter[k] == h;
      assert h <= m;
    }
  }

  /** setHeat(count, maxCount) then setHeatColors(cold, hot) on one cell. */
  function RefreshedCell(c: CellState, count: int, maxCount: int, cold: Rgb, hot: Rgb): CellState
  {
    WithHeat(c, count, maxCount).(cold := cold, hot := hot)
  }

  /** Every cell refreshed with the given maximum. */
  function RefreshWith(b: Board, maxCount: int): Board
    requires WellFormed(b)
  {
    b.(cells := seq(|b.cells|, i requires 0 <= i < |b.cells| =>
         RefreshedCell(b.cells[i], ShownCount(b, b.codes[i]), maxCount, b.cold, b.hot)))
  }

  /** refreshHeatMap. */
  ghost function Refresh(b: Board): Board
    requires WellFormed(b)
  {
    RefreshWith(b, HeatMax(b.counter))
  }

  /** QHash::value(code) on a multi-hash: the cell inserted last for code. */
  function LastIndexOf(codes: seq<int>, code: int): (i: int)
    requires code in codes
    ensures 0 <= i < |codes| && codes[i] == code
    ensures forall j :: i < j < |codes| ==> codes[j] != code
  {
    if codes[|codes| - 1] == code then |codes| - 1 else LastIndexOf(codes[..|codes| - 1], code)
  }

  /** recordKey: an unbound code changes nothing; a bound one has its count
      raised by one, its most recently bound cell lit, and the map refreshed. */
  ghost function RecordKey(b: Board, code: int): Board
    requires WellFormed(b)
  {
    if code !in b.codes then b else Refresh(Light(b, code))
  }

  /** The first half of recordKey for a bound code: the count raised by one
      and the most recently bound cell lit, before the refresh. */
  function Light(b: Board, code: int): Board
    requires WellFormed(b) && code in b.codes
  {
    var i := LastIndexOf(b.codes, code);
    b.(counter := b.counter[code := Count(b.counter, code) + 1],
       cells := b.cells[i := b.cells[i].(glow := Trigger(b.cells[i].glow))])
  }

  /** setHeatSamples: the table is replaced as given, without any check. */
  ghost function SetHeatSamples(b: Board, samples: map<int, int>): Board
    requires WellFormed(b)
  {
    Refresh(b.(counter := samples))
  }

  /** clearStatistics. */
  ghost function ClearStatistics(b: Board): Board
    requires WellFormed(b)
  {
    Refresh(b.(counter := map[]))
  }

  /** setHeatMapEnabled. */
  ghost function SetHeatMapEnabled(b: Board, enabled: bool): Board
    requires WellFormed(b)
  {
    Refresh(b.(heatMapEnabled := enabled))
  }

  /** setColdColor. */
  ghost function SetColdColor(b: Board, color: Rgb): Board
    requires WellFormed(b)
  {
    Refresh(b.(cold := color))
  }

  /** setHotColor. */
  ghost function SetHotColor(b: Board, color: Rgb): Board
    requires WellFormed(b)
  {
    Refresh(b.(hot := color))
  }

  /** setHighlightColor: stored and handed to every cell, without a refresh. */
  function SetHighlightColor(b: Board, color: Rgb): Board
  {
    b.(highlight := color,
       cells := seq(|b.cells|, i requires 0 <= i < |b.cells| => b.cells[i].(highlight := color)))
  }

  /** setTrackPhysicalKeyboard: nothing when the flag already has that value,
      otherwise the flag flips with one install or one removal of the filter. */
  function SetTrackPhysicalKeyboard(b: Board, enabled: bool): Board
  {
    if b.track == enabled then b
    else if enabled then b.(track := true, installs := b.installs + 1)
    else b.(track := false, removes := b.removes + 1)
  }

  /** eventFilter: a key press is recorded only while tracking is on. */
  ghost function EventFilter(b: Board, event: Event): Board
    requires WellFormed(b)
  {
    if b.track && event.KeyPress? then RecordKey(b, event.key) else b
  }

  /** The destructor: the filter is removed if tracking is still on. */
  function Teardown(b: Board): Board
  {
    if b.track then b.(removes := b.removes + 1) else b
  }

  /** A cell as addKey leaves it: new, with the widget's colours and white text. */
  const CreatedCell: CellState :=
    NewCell.(cold := WidgetCold, hot := WidgetHot, highlight := WidgetHighlight, text := White)

  /** The state right after construction, for the given bindings. */
  function InitialBoard(codes: seq<int>): Board
  {
    Board(codes, seq(|codes|, i => CreatedCell), map[], true, true,
          WidgetCold, WidgetHot, WidgetHighlight, 1, 0)
  }

  // ---------------------------------------------------------------------
  // Properties

  /** A new widget tracks the keyboard with the filter installed once, shows
      the heat map, and every cell is idle and cold. */
  lemma InitialBoardConsistent(codes: seq<int>)
    ensures Consistent(InitialBoard(codes))
    ensures InitialBoard(codes).track && InitialBoard(codes).heatMapEnabled
    ensures InitialBoard(codes).installs == 1 && InitialBoard(codes).removes == 0
    ensures forall i :: 0 <= i < |codes| ==>
      && !InitialBoard(codes).cells[i].glow.fading
      && BaseColor(InitialBoard(codes).cells[i]) == WidgetCold
  {
  }

  /** After a refresh every cell carries the same maximum, which is at least
      1 and at least every count in the table (also counts of codes no cell is
      bound to); each cell shows its code's count, or 0 with the heat map off;
      glow and highlight are untouched and the table is unchanged. */
  lemma RefreshCells(b: Board, i: int)
    requires WellFormed(b) && 0 <= i < |b.cells|
    ensures var r := Refresh(b);
      && r.counter == b.counter && r.codes == b.codes && |r.cells| == |b.cells|
      && r.cells[i].heatMax == HeatMax(b.counter)
      && r.cells[i].heat == (if b.heatMapEnabled then Count(b.counter, b.codes[i]) else 0)
      && r.cells[i].glow == b.cells[i].glow
      && r.cells[i].highlight == b.cells[i].highlight
      && r.cells[i].cold == b.cold && r.cells[i].hot == b.hot
      && (forall k :: k in b.counter ==> b.counter[k] <= r.cells[i].heatMax)
      && r.cells[i].heatMax >= 1
  {
  }

  /** With the heat map on and a non-negative count, a refreshed cell's heat
      factor is its count divided by the maximum, never clamped: the maximum
      is never below the count. */
  lemma RefreshRatio(b: Board, i: int)
    requires WellFormed(b) && 0 <= i < |b.cells| && b.heatMapEnabled
    requires Count(b.counter, b.codes[i]) >= 0
    ensures var c := Refresh(b).cells[i];
      && c.heat <= c.heatMax
      && HeatFactor(c.heat, c.heatMax) * HeatMax(b.counter) as real == Count(b.counter, b.codes[i]) as real
  {
    var code := b.codes[i];
    if code in b.counter {
      assert b.counter[code] <= HeatMax(b.counter);
    }
  }

  /** A refresh establishes the widget invariant: the maximum it hands out is
      at least 1, the glow levels are untouched, and every cell is brought in
      line with the table. */
  lemma RefreshKeepsConsistent(b: Board)
    requires Sound(b)
    ensures Consistent(Refresh(b))
  {
    var r := Refresh(b);
    forall i | 0 <= i < |r.cells| ensures CellOk(r.cells[i]) {
      RefreshCells(b, i);
    }
  }

  /** Lighting one cell and setting a new table keeps everything a refresh
      needs. */
  lemma LightingKeepsSound(b: Board, code: int)
    requires Sound(b) && code in b.codes
    ensures Sound(Light(b, code))
  {
  }

  /** recordKey keeps the widget invariant. */
  lemma RecordKeyKeepsConsistent(b: Board, code: int)
    requires Consistent(b)
    ensures Consistent(RecordKey(b, code))
  {
    if code in b.codes {
      LightingKeepsSound(b, code);
      RefreshKeepsConsistent(Light(b, code));
    }
  }

  /** setHeatMapEnabled, setColdColor and setHotColor keep the widget invariant. */
  lemma SettersKeepConsistent(b: Board, flag: bool, color: Rgb)
    requires Consistent(b)
    ensures Consistent(SetHeatMapEnabled(b, flag))
    ensures Consistent(SetColdColor(b, color)) && Consistent(SetHotColor(b, color))
  {
    RefreshKeepsConsistent(b.(heatMapEnabled := flag));
    RefreshKeepsConsistent(b.(cold := color));
    RefreshKeepsConsistent(b.(hot := color));
  }

  /** setHeatSamples and clearStatistics keep the widget invariant. */
  lemma StatisticsKeepConsistent(b: Board, samples: map<int, int>)
    requires Consistent(b)
    ensures Consistent(SetHeatSamples(b, samples))
    ensures Consistent(ClearStatistics(b))
  {
    RefreshKeepsConsistent(b.(counter := samples));
    RefreshKeepsConsistent(b.(counter := map[]));
  }

  /** setHighlightColor keeps the widget invariant. */
  lemma HighlightKeepsConsistent(b: Board, color: Rgb)
    requires Consistent(b)
    ensures Consistent(SetHighlightColor(b, color))
  {
    var r := SetHighlightColor(b, color);
    assert forall i :: 0 <= i < |r.cells| ==> r.cells[i] == b.cells[i].(highlight := color);
  }

  /** setTrackPhysicalKeyboard and eventFilter keep the widget invariant. */
  lemma TrackingKeepsConsistent(b: Board, flag: bool, event: Event)
    requires Consistent(b)
    ensures Consistent(SetTrackPhysicalKeyboard(b, flag))
    ensures Consistent(EventFilter(b, event))
  {
    if b.track && event.KeyPress? {
      RecordKeyKeepsConsistent(b, event.key);
    }
  }

  /** recordKey of a code no cell is bound to changes nothing at all. */
  lemma RecordUnboundIsNoop(b: Board, code: int)
    requires WellFormed(b) && code !in b.codes
    ensures RecordKey(b, code) == b
  {
  }

  /** recordKey of a bound code raises that code's count by exactly one (an
      absent entry becomes 1) and leaves every other entry as it was. */
  lemma RecordBoundCounts(b: Board, code: int)
    requires WellFormed(b) && code in b.codes
    ensures RecordKey(b, code).counter.Keys == b.counter.Keys + {code}
    ensures Count(RecordKey(b, code).counter, code) == Count(b.counter, code) + 1
    ensures code !in b.counter ==> RecordKey(b, code).counter[code] == 1
    ensures forall k :: k != code ==> Count(RecordKey(b, code).counter, k) == Count(b.counter, k)
  {
  }

  /** recordKey of a bound code lights exactly one cell, the one bound last
      for that code, even when several cells share the code; every other
      cell's glow is unchanged. */
  lemma RecordLightsLastBound(b: Board, code: int, j: int)
    requires WellFormed(b) && code in b.codes && 0 <= j < |b.cells|
    ensures RecordKey(b, code).cells[j].glow
         == if j == LastIndexOf(b.codes, code) then Glow(1.0, true) else b.cells[j].glow
  {
  }

  /** A cell sharing a code with a later cell is not lit by a press of it. */
  lemma EarlierTwinStaysDark(b: Board, code: int, i: int, j: int)
    requires WellFormed(b) && 0 <= i < j < |b.codes| && b.codes[i] == code && b.codes[j] == code
    ensures RecordKey(b, code).cells[i].glow == b.cells[i].glow
    ensures RecordKey(b, code).cells[j].heat == RecordKey(b, code).cells[i].heat
  {
    var last := LastIndexOf(b.codes, code);
    assert last >= j;
    RecordLightsLastBound(b, code, i);
  }

  /** setHeatSamples keeps the table exactly as given, negative counts and
      codes without a cell included. */
  lemma SamplesKeptVerbatim(b: Board, samples: map<int, int>)
    requires WellFormed(b)
    ensures SetHeatSamples(b, samples).counter == samples
    ensures forall i :: 0 <= i < |b.cells| ==> SetHeatSamples(b, samples).cells[i].heatMax == HeatMax(samples)
  {
  }

  /** clearStatistics empties the table and every cell receives (0, 1), so
      every cell's heat colour is the cold colour. */
  lemma ClearMakesCold(b: Board, i: int)
    requires WellFormed(b) && 0 <= i < |b.cells|
    ensures ClearStatistics(b).counter == map[]
    ensures ClearStatistics(b).cells[i].heat == 0 && ClearStatistics(b).cells[i].heatMax == 1
    ensures BaseColor(ClearStatistics(b).cells[i]) == b.cold
  {
  }

  /** Switching the heat map off shows every cell at count 0 (the cold colour)
      and leaves the table untouched. */
  lemma DisableShowsCold(b: Board, i: int)
    requires WellFormed(b) && 0 <= i < |b.cells|
    ensures SetHeatMapEnabled(b, false).counter == b.counter
    ensures SetHeatMapEnabled(b, false).cells[i].heat == 0
    ensures BaseColor(SetHeatMapEnabled(b, false).cells[i]) == b.cold
  {
  }

  /** Switching the heat map off and on again gives exactly the state that
      switching it on gives: nothing is lost while it is off. */
  lemma {:induction false} DisableThenEnableRestores(b: Board)
    requires WellFormed(b)
    ensures SetHeatMapEnabled(SetHeatMapEnabled(b, false), true) == SetHeatMapEnabled(b, true)
  {
    var off := SetHeatMapEnabled(b, false);
    var x, y := SetHeatMapEnabled(off, true), SetHeatMapEnabled(b, true);
    assert |x.cells| == |y.cells|;
    forall i | 0 <= i < |x.cells|
      ensures x.cells[i] == y.cells[i]
    {
      assert off.cells[i].glow == b.cells[i].glow;
    }
  }

  /** Setting the tracking flag to its current value changes nothing;
      otherwise exactly one install (on) or one removal (off) happens. The
      filter stays installed exactly while tracking is on. */
  lemma TrackToggle(b: Board, enabled: bool)
    requires FilterBalanced(b)
    ensures FilterBalanced(SetTrackPhysicalKeyboard(b, enabled))
    ensures SetTrackPhysicalKeyboard(b, enabled).track == enabled
    ensures b.track == enabled ==> SetTrackPhysicalKeyboard(b, enabled) == b
    ensures b.track != enabled && enabled ==>
      SetTrackPhysicalKeyboard(b, enabled).installs == b.installs + 1
      && SetTrackPhysicalKeyboard(b, enabled).removes == b.removes
    ensures b.track != enabled && !enabled ==>
      SetTrackPhysicalKeyboard(b, enabled).removes == b.removes + 1
      && SetTrackPhysicalKeyboard(b, enabled).installs == b.installs
  {
  }

  /** Destruction leaves the filter removed as often as it was installed. */
  lemma TeardownReleases(b: Board)
    requires FilterBalanced(b)
    ensures Teardown(b).installs == Teardown(b).removes
  {
  }

  /** The event filter records a key press only while tracking is on and
      ignores every other event. */
  lemma EventFilterRecordsPresses(b: Board, event: Event)
    requires WellFormed(b)
    ensures !b.track ==> EventFilter(b, event) == b
    ensures !event.KeyPress? ==> EventFilter(b, event) == b
    ensures b.track && event.KeyPress? ==> EventFilter(b, event) == RecordKey(b, event.key)
  {
  }

  /** Keys A (65) and S (83): three presses of A and one of S give the table
      {65: 3, 83: 1}, a maximum of 3, A fully hot and S one third of the way. */
  lemma {:induction false} PressScenario(b: Board)
    requires b.codes == [65, 83] && |b.cells| == 2 && b.counter == map[] && b.heatMapEnabled
    ensures var r := RecordKey(RecordKey(RecordKey(RecordKey(b, 65), 65), 65), 83);
      && r.counter == map[65 := 3, 83 := 1]
      && r.cells[0].heat == 3 && r.cells[0].heatMax == 3
      && r.cells[1].heat == 1 && r.cells[1].heatMax == 3
      && HeatFactor(r.cells[0].heat, r.cells[0].heatMax) == 1.0
      && HeatFactor(r.cells[1].heat, r.cells[1].heatMax) == 1.0 / 3.0
  {
    var b1 := RecordKey(b, 65);
    assert b1.counter == map[65 := 1];
    var b2 := RecordKey(b1, 65);
    assert b2.counter == map[65 := 2];
    var b3 := RecordKey(b2, 65);
    assert b3.counter == map[65 := 3];
    var r := RecordKey(b3, 83);
    assert r.counter == map[65 := 3, 83 := 1];
    HeatMaxUnique(r.counter, 3);
  }

  /** setHeatSamples({65: 10}) then clearStatistics leaves an empty table and
      every cell at heat 0 with maximum 1. */
  lemma SamplesThenClear(b: Board, i: int)
    requires WellFormed(b) && 0 <= i < |b.cells|
    ensures var r := ClearStatistics(SetHeatSamples(b, map[65 := 10]));
      r.counter == map[] && r.cells[i].heat == 0 && r.cells[i].heatMax == 1
  {
  }
}
