# Virtual keyboard heat map — a Dafny model

This project models the logic under a Qt virtual-keyboard widget that
colours each key by how often it was pressed. The two classes modelled are:

- **`VirtualKeyboardWidget`**. It builds about eighty key cells from six
  constant row tables, placing them with a column cursor. It keeps a
  press-count table and a one-to-many binding from Qt key codes to cells.
  It has two switches, physical-keyboard tracking and heat map enabled.
  It pushes counts, colours and a glow to its cells.
- **`KeyButton`**. It holds one cell's heat pair `(heat, heatMax)` and a
  glow level that a timer fades by 0.04 per tick. It computes the colour
  the cell is painted in.

The modules:

- `Numbers` (`numbers.dfy`): `qMin` and `qMax` on integers.
- `Colors` (`colors.dfy`): RGB channels, `qBound`, truncation toward zero,
  `mixColor`, and the brightened border of the pressed style.
- `KeyButtons` (`key_button.dfy`): the glow machine and the cell state as
  values, with the fade lemmas. It also holds the class `KeyButton`, whose
  methods are proved against those values.
- `KeyLayout` (`key_layout.dfy`): `KeySpec` with its defaults, the six row
  tables, and the column-cursor arithmetic of the constructor.
- `KeyboardModel` (`keyboard_model.dfy`): the widget's observable state as a
  datatype `Board`, one function per operation, and the properties proved
  about them. The invariant `Consistent` says the filter is installed
  exactly while tracking is on, and every cell agrees with the count table.
- `VirtualKeyboard` (`virtual_keyboard_widget.dfy`): the class
  `VirtualKeyboardWidget`. Its fields are the source's fields. Every public
  operation except the destructor is proved to keep `Valid()`. Every public
  operation, the destructor included, is proved to move the ghost `Model()`
  exactly as the matching `KeyboardModel` function does. The destructor removes the filter while the
  tracking flag stays set, so it ends in a state outside `Valid()`. The
  construction helpers keep the weaker `Fresh()` and the per-cell loop
  steps keep `CellsValid()`.

Modelling decisions:

- **Multi-hash.** `m_keyButtons` is a sequence of (code, cell) bindings in
  insertion order. `QHash::value(code)` answers the most recently inserted
  cell, so `recordKey` lights only the later of two cells sharing a code,
  such as the right Shift. The model does the same (`RecordLightsLastBound`,
  `EarlierTwinStaysDark`).
- **Fade timer.** The glow timer is the flag `fading`, and a timer timeout
  is `TimerFired`. Glow levels are exact reals.
- **Event filter.** `qApp->installEventFilter` and `removeEventFilter` are
  two ghost counters, `installs` and `removes`. The constructor's
  installation (src/VirtualKeyboardWidget.cpp:117-119) sets `installs` to 1
  at the start of construction. Nothing observes the counters before the
  constructor ends, so the order does not matter.
- **Base event filter.** The answer of `QWidget::eventFilter` is a
  parameter of `EventFilter`.
- **Key codes.** Qt key codes take their numeric values from Qt's
  `Qt::Key` enumeration.

## Model

| member | source | states |
|---|---|---|
| Colors.Clamp01 | src/KeyButton.cpp:132 | qBound to [0, 1]: the result lies in [0, 1], is the input inside it and the nearer end outside it |
| Colors.Truncate | src/KeyButton.cpp:134-136 | static_cast<int> rounds toward zero: within one below a non-negative value, within one above a negative one |
| Colors.LerpBetween | src/KeyButton.cpp:134-136 | for a factor in [0, 1] the interpolated channel lies between the two end channels |
| Colors.MixChannel | src/KeyButton.cpp:134-136 | a truncated channel of the mix lies between the two end channels, so it is a valid 0..255 channel |
| Colors.MixColor | src/KeyButton.cpp:130-137 | every channel lies between those of a and b; a factor of 0 or below gives a, 1 or above gives b |
| Colors.MixSame | src/KeyButton.cpp:130-137 | mixing a colour with itself gives that colour, whatever the factor |
| Colors.PressedChannel | src/KeyButton.cpp:122-124 | min(255, c + 40): c + 40 up to 215, 255 above, never below c |
| Colors.PressedBorder | src/KeyButton.cpp:122-124 | each pressed-border channel is min(255, c + 40) of the glow colour's channel c: c + 40 up to 215, 255 above, never below c |
| KeyButtons.Trigger | src/KeyButton.cpp:21-27 | triggerGlow gives level 1.0 with the timer running, whatever the prior state |
| KeyButtons.FadeStepCases | src/KeyButton.cpp:90-100 | a tick above 0.04 lowers the level by exactly 0.04 and keeps fading; at or below 0.04 the level is 0 and fading stops |
| KeyButtons.GlowStaysInRange | src/KeyButton.cpp:80-100 | triggerGlow, a timer tick and setGlowLevel all keep the level in [0, 1] |
| KeyButtons.TickDecreases | src/KeyButton.cpp:90-100 | while fading with a positive level each tick strictly lowers it; an idle glow is not touched by the timer |
| KeyButtons.FadeFromTrigger | src/KeyButton.cpp:90-100 | k < 25 ticks after a trigger the level is 1 - 0.04k and the timer still runs |
| KeyButtons.FadeStopsAfter25 | src/KeyButton.cpp:90-100 | 25 or more ticks after a trigger the level is exactly 0 and the timer has stopped |
| KeyButtons.FadeProgress | src/KeyButton.cpp:90-100 | a running fade after k ticks has lost exactly k steps and is still positive, or has stopped at 0 |
| KeyButtons.FadeTerminates | src/KeyButton.cpp:90-100 | from any level in [0, 1] a running fade is over within 25 ticks, at level 0 with the timer stopped |
| KeyButtons.WithHeatClamps | src/KeyButton.cpp:29-34 | setHeat stores the count unchanged and the maximum as max(1, maxCount); the glow is untouched |
| KeyButtons.HeatFactor | src/KeyButton.cpp:144 | the heat factor lies in [0, 1]; it is 0 at no presses, 1 at or above the maximum, and exactly heat/heatMax in between |
| KeyButtons.BaseColorEnds | src/KeyButton.cpp:144-145 | the heat colour is the cold colour at heat 0, the hot colour at heat = heatMax, and between them channel by channel |
| KeyButtons.DisplayColorGlow | src/KeyButton.cpp:147-150 | at glow 0 the painted colour is the heat colour, at glow 1 the highlight colour, in between each channel lies between the two |
| KeyButtons.NewCellIsCold | src/KeyButton.h:42-55 | a new cell (heat 0, max 1, glow 0) is idle and paints its cold colour (30, 35, 45) |
| KeyButtons.KeyButton.constructor | src/KeyButton.h:42-55 | a new cell has heat 0, maximum 1, glow 0, the timer stopped and the default cold, hot, highlight and white text colours |
| KeyButtons.KeyButton.GlowLevel | src/KeyButton.h:25 | glowLevel() answers the stored level, which is always within [0, 1] |
| KeyButtons.KeyButton.TriggerGlow | src/KeyButton.cpp:21-27 | the glow becomes Trigger of the old glow; the duration argument (default 900) changes nothing; all else kept |
| KeyButtons.KeyButton.SetHeat | src/KeyButton.cpp:29-34 | the cell state becomes WithHeat of the old one; the cell stays valid |
| KeyButtons.KeyButton.SetHeatColors | src/KeyButton.cpp:36-40 | only the cold and hot colours change, to the given ones |
| KeyButtons.KeyButton.SetHighlightColor | src/KeyButton.cpp:42-45 | only the highlight colour changes |
| KeyButtons.KeyButton.SetBaseTextColor | src/KeyButton.cpp:47-50 | only the text colour changes |
| KeyButtons.KeyButton.SetGlowLevel | src/KeyButton.cpp:80-88 | a level equal to the current one changes nothing; any other is stored clamped to [0, 1]; the timer is untouched |
| KeyButtons.KeyButton.OnFadeStep | src/KeyButton.cpp:90-100 | the glow becomes FadeStep of the old glow: one 0.04 step down, or 0 with the timer stopped |
| KeyButtons.KeyButton.TimerFired | src/KeyButton.cpp:16-17 | a timeout runs onFadeStep only while the timer runs |
| KeyButtons.KeyButton.DisplayedColor | src/KeyButton.cpp:144-150 | the fill colour is DisplayColor of the cell: the heat colour at glow 0, the highlight colour at glow 1 |
| KeyButtons.KeyButton.PressedBorderColor | src/KeyButton.cpp:119-124 | each of the red, green and blue border channels is min(255, c + 40) of the highlight channel c: c + 40 up to 215, 255 above, never below c |
| KeyLayout.SpecDefaults | src/VirtualKeyboardWidget.h:13-18 | a row-table entry that gives no code or spans has code 0 and spans one column and one row |
| KeyLayout.RowPlacementAt | src/VirtualKeyboardWidget.cpp:95-101 | key i of a row goes to that row, at the column that sums the spans of the keys before it, with its own code and spans |
| KeyLayout.RowLength | src/VirtualKeyboardWidget.cpp:97-98 | the inner loop places every key of a row exactly once |
| KeyLayout.GridLength | src/VirtualKeyboardWidget.cpp:95-101 | the rows together give one placement per key of the tables |
| KeyLayout.GridPlacementAt | src/VirtualKeyboardWidget.cpp:95-101 | every key of every row is placed, rows in order, key i of row r at its cursor column |
| KeyLayout.ColumnsIncrease | src/VirtualKeyboardWidget.cpp:96-100 | with positive spans a later key of a row starts at or after the end of an earlier one |
| KeyLayout.WidestRowIsMax | src/VirtualKeyboardWidget.cpp:94-101 | maxColumns is at least every row's width, never negative, and 0 or the width of one row |
| KeyLayout.BuiltInWidth | src/VirtualKeyboardWidget.cpp:12-78 | the built-in rows are 18, 15, 16, 16, 16 and 19 columns wide, so the grid has 19 columns |
| KeyLayout.BuiltInShiftTwice | src/VirtualKeyboardWidget.cpp:56-63 | the built-in layout places 83 keys, and both Shift keys (placements 60 and 71) are bound to the Shift code |
| KeyLayout.SharedCodes | src/VirtualKeyboardWidget.cpp:56-78 | Shift, Ctrl, Win and Alt each appear twice in the row tables |
| KeyboardModel.LargestCount | src/VirtualKeyboardWidget.cpp:270 | std::max_element of a non-empty table: one of the counts, and at least every count |
| KeyboardModel.HeatMax | src/VirtualKeyboardWidget.cpp:266-271 | the maximum is 1 for an empty table, otherwise max(1, largest count): at least 1, at least every count, and 1 or one of the counts |
| KeyboardModel.HeatMaxUnique | src/VirtualKeyboardWidget.cpp:266-271 | only one value has the properties of the maximum, so any computation of it agrees with HeatMax |
| KeyboardModel.LastIndexOf | src/VirtualKeyboardWidget.cpp:215 | QHash::value on the multi-hash: a binding of the code with no later binding of it |
| KeyboardModel.InitialBoardConsistent | src/VirtualKeyboardWidget.h:83-94 | a new widget is consistent: tracking and heat map on, the filter installed once, every cell idle and cold (18, 26, 38) |
| KeyboardModel.RefreshCells | src/VirtualKeyboardWidget.cpp:266-285 | after a refresh every cell has the same maximum, at least 1 and at least every count, even of codes without a cell; its code's count or 0 with the heat map off; the table, glow and highlight are unchanged |
| KeyboardModel.RefreshRatio | src/VirtualKeyboardWidget.cpp:266-285 | with the heat map on, a refreshed cell with a non-negative count has a heat factor of exactly its count over the maximum, never clamped |
| KeyboardModel.RefreshKeepsConsistent | src/VirtualKeyboardWidget.cpp:266-285 | a refresh brings every cell in line with the table and keeps every cell valid |
| KeyboardModel.LightingKeepsSound | src/VirtualKeyboardWidget.cpp:214-217 | counting a press and lighting one cell keeps every cell valid and the filter balanced |
| KeyboardModel.RecordKeyKeepsConsistent | src/VirtualKeyboardWidget.cpp:209-219 | recordKey keeps the widget invariant |
| KeyboardModel.SettersKeepConsistent | src/VirtualKeyboardWidget.cpp:146-159 | setHeatMapEnabled, setColdColor and setHotColor keep the widget invariant |
| KeyboardModel.StatisticsKeepConsistent | src/VirtualKeyboardWidget.cpp:221-229 | setHeatSamples and clearStatistics keep the widget invariant, whatever the samples |
| KeyboardModel.HighlightKeepsConsistent | src/VirtualKeyboardWidget.cpp:161-169 | setHighlightColor keeps the widget invariant |
| KeyboardModel.TrackingKeepsConsistent | src/VirtualKeyboardWidget.cpp:133-144 | setTrackPhysicalKeyboard and eventFilter keep the widget invariant |
| KeyboardModel.RecordUnboundIsNoop | src/VirtualKeyboardWidget.cpp:209-212 | recordKey of a code no cell is bound to changes nothing at all |
| KeyboardModel.RecordBoundCounts | src/VirtualKeyboardWidget.cpp:214 | recordKey of a bound code raises its count by exactly 1 (absent becomes 1) and leaves every other entry unchanged |
| KeyboardModel.RecordLightsLastBound | src/VirtualKeyboardWidget.cpp:215-217 | recordKey lights exactly the cell bound last for the code; every other cell's glow is unchanged |
| KeyboardModel.EarlierTwinStaysDark | src/VirtualKeyboardWidget.cpp:215-217 | of two cells sharing a code the earlier one does not glow, though both show the same count |
| KeyboardModel.SamplesKeptVerbatim | src/VirtualKeyboardWidget.cpp:221-224 | setHeatSamples keeps the given table exactly, negative counts and unbound codes included, and every cell gets its maximum |
| KeyboardModel.ClearMakesCold | src/VirtualKeyboardWidget.cpp:226-229 | clearStatistics empties the table and every cell gets (0, 1), so it shows the cold colour |
| KeyboardModel.DisableShowsCold | src/VirtualKeyboardWidget.cpp:146-149 | switching the heat map off shows every cell at count 0 in the cold colour and leaves the table untouched |
| KeyboardModel.DisableThenEnableRestores | src/VirtualKeyboardWidget.cpp:146-149 | switching the heat map off and on again gives the same state as switching it on |
| KeyboardModel.TrackToggle | src/VirtualKeyboardWidget.cpp:133-144 | the same flag changes nothing; otherwise exactly one install (on) or one removal (off) happens, and the filter stays installed exactly while tracking is on |
| KeyboardModel.TeardownReleases | src/VirtualKeyboardWidget.cpp:122-127 | after the destructor the filter has been removed as often as it was installed |
| KeyboardModel.EventFilterRecordsPresses | src/VirtualKeyboardWidget.cpp:231-243 | a key press is recorded only while tracking is on; any other event and any event while not tracking changes nothing |
| KeyboardModel.PressScenario | src/VirtualKeyboardWidget.cpp:209-219 | three presses of A and one of S give the table {A: 3, S: 1}, maximum 3, A fully hot and S one third of the way |
| KeyboardModel.SamplesThenClear | src/VirtualKeyboardWidget.cpp:221-229 | injecting samples then clearing leaves an empty table and every cell at (0, 1) |
| VirtualKeyboard.MaxCount | src/VirtualKeyboardWidget.cpp:266-271 | the one pass over the table computes exactly HeatMax: 1 when empty, else max(1, largest count) |
| VirtualKeyboard.VirtualKeyboardWidget.constructor | src/VirtualKeyboardWidget.cpp:81-120 | the new widget is valid, its placements are the six tables' cursor placements, its column count is the widest row, and its state is the initial board |
| VirtualKeyboard.VirtualKeyboardWidget.AddRows | src/VirtualKeyboardWidget.cpp:94-109 | the outer loop places all rows in order and keeps the widest row as the column count |
| VirtualKeyboard.VirtualKeyboardWidget.AddRow | src/VirtualKeyboardWidget.cpp:96-100 | the inner loop places a row's keys at the running cursor and ends at the row's width |
| VirtualKeyboard.VirtualKeyboardWidget.InitialModel | src/VirtualKeyboardWidget.cpp:92-119 | once the rows are built and the filter installed, the widget is valid and its state is the initial board |
| VirtualKeyboard.VirtualKeyboardWidget.AddKey | src/VirtualKeyboardWidget.cpp:245-253 | a new cell with the widget's colours and white text is placed and bound to its code after every earlier binding, which are kept |
| VirtualKeyboard.VirtualKeyboardWidget.TrackPhysicalKeyboard | src/VirtualKeyboardWidget.h:35 | answers the stored flag, which is on exactly while the filter is installed |
| VirtualKeyboard.VirtualKeyboardWidget.HeatMapEnabled | src/VirtualKeyboardWidget.h:39 | answers the stored flag; while it is off every cell holds count 0 |
| VirtualKeyboard.VirtualKeyboardWidget.SetTrackPhysicalKeyboard | src/VirtualKeyboardWidget.cpp:133-144 | moves the state as KeyboardModel.SetTrackPhysicalKeyboard and keeps the invariant |
| VirtualKeyboard.VirtualKeyboardWidget.RefreshHeatMap | src/VirtualKeyboardWidget.cpp:266-285 | the loop over the cells moves the state as KeyboardModel.Refresh and establishes the invariant |
| VirtualKeyboard.VirtualKeyboardWidget.Refreshed | src/VirtualKeyboardWidget.cpp:273-285 | once every cell holds its refreshed state, the widget state is the refreshed board and is valid |
| VirtualKeyboard.VirtualKeyboardWidget.RefreshCell | src/VirtualKeyboardWidget.cpp:281-283 | one cell gets its code's shown count, the maximum and the heat colours; no other cell changes |
| VirtualKeyboard.VirtualKeyboardWidget.SetHeatMapEnabled | src/VirtualKeyboardWidget.cpp:146-149 | moves the state as KeyboardModel.SetHeatMapEnabled and keeps the invariant |
| VirtualKeyboard.VirtualKeyboardWidget.SetColdColor | src/VirtualKeyboardWidget.cpp:151-154 | moves the state as KeyboardModel.SetColdColor and keeps the invariant |
| VirtualKeyboard.VirtualKeyboardWidget.SetHotColor | src/VirtualKeyboardWidget.cpp:156-159 | moves the state as KeyboardModel.SetHotColor and keeps the invariant |
| VirtualKeyboard.VirtualKeyboardWidget.SetHighlightColor | src/VirtualKeyboardWidget.cpp:161-169 | stores the colour and hands it to every cell without a refresh, as KeyboardModel.SetHighlightColor |
| VirtualKeyboard.VirtualKeyboardWidget.HighlightCell | src/VirtualKeyboardWidget.cpp:164-168 | one cell gets the new highlight colour; no other cell changes |
| VirtualKeyboard.VirtualKeyboardWidget.Highlighted | src/VirtualKeyboardWidget.cpp:161-169 | once every cell has the new highlight, the widget state is KeyboardModel.SetHighlightColor of the old one and is valid |
| VirtualKeyboard.VirtualKeyboardWidget.RecordKey | src/VirtualKeyboardWidget.cpp:209-219 | moves the state as KeyboardModel.RecordKey and keeps the invariant |
| VirtualKeyboard.VirtualKeyboardWidget.LightKey | src/VirtualKeyboardWidget.cpp:214-217 | a bound code's count goes up by one and the cell QHash::value answers is lit, as KeyboardModel.Light |
| VirtualKeyboard.VirtualKeyboardWidget.SetHeatSamples | src/VirtualKeyboardWidget.cpp:221-224 | moves the state as KeyboardModel.SetHeatSamples and keeps the invariant |
| VirtualKeyboard.VirtualKeyboardWidget.ClearStatistics | src/VirtualKeyboardWidget.cpp:226-229 | moves the state as KeyboardModel.ClearStatistics and keeps the invariant |
| VirtualKeyboard.VirtualKeyboardWidget.EventFilter | src/VirtualKeyboardWidget.cpp:231-243 | always answers the base class's result and moves the state as KeyboardModel.EventFilter |
| VirtualKeyboard.VirtualKeyboardWidget.Destroy | src/VirtualKeyboardWidget.cpp:122-127 | removes the filter if tracking is on, as KeyboardModel.Teardown, so it is removed as often as installed |

## Left out

- Painting is not modelled. This covers `QPainter`, rounded paths, pixmap scaling and cropping, and the tint fill (src/KeyButton.cpp:152-184). Only the fill colour of lines 144-150 is modelled.
- Style sheets are not modelled: the `setStyleSheet` string, `update()`, and the 200/230 alpha values. Only the pressed-border channel arithmetic is kept.
- Background images are not modelled: `setKeyBackgroundImage`, `setKeyBackgroundPixmap`, `clearKeyBackgroundImage`, `setBackgroundPixmap`, `setBackgroundImagePath`, and the `m_keyBackgrounds` lookup in `addKey`. They load files or compare `QPixmap` cache keys.
- Fonts and sizes are not modelled: `setKeyFont`, `sizeHint`, minimum sizes and size policies. These are toolkit settings.
- Grid-layout calls and stretch factors are not modelled. Only the placement arguments and the column count are kept.
- The `QTimer` and its 30 ms interval are not modelled. The running state is the `fading` flag, and a timeout is `TimerFired`.
- Qt signals (`glowLevelChanged` and the others) and the `clicked` to `recordKey` connection are not modelled. A click is the same call as `RecordKey`.
- `qApp->installEventFilter` and `removeEventFilter` are not modelled. They are ghost counters.
- Floating point is idealised. `qFuzzyCompare` in `setGlowLevel` is exact equality. `qreal` arithmetic is exact real arithmetic, so the fade takes exactly 25 ticks, which IEEE doubles need not match. QColor's 16-bit alpha quantisation in `setAlphaF`/`alphaF` is not modelled.
- Counts are unbounded integers, so `int` overflow of a count after 2^31 - 1 presses is not modelled.
- `QPointer` null checks are not modelled. Every cell is a child of the widget and lives as long as it does.
- `QHash` iteration order is not modelled. `refreshHeatMap` and `setHighlightColor` visit the bindings in insertion order, and their result does not depend on the order.
- The Qt Designer plugin and the demo program have no logic of their own.
