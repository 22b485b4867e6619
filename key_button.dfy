/** One key cell: its heat pair, its two-state glow machine (idle or fading,
    the glow timer's running flag being the state), and the colour it shows. */
module KeyButtons {
  import opened Numbers
  import opened Colors

  /** Amount the glow level loses on every tick of the fade timer. */
  const GlowStep: real := 0.04

  /** Default argument of triggerGlow; the fade ignores it. */
  const DefaultGlowDurationMs: int := 900

  /** Colours a cell holds before anyone configures it. */
  const DefaultCold: Rgb := Rgb(30, 35, 45)
  const DefaultHot: Rgb := Rgb(102, 170, 255)
  const DefaultHighlight: Rgb := Rgb(255, 51, 102)

  /** The glow level and whether the fade timer is running. */
  datatype Glow = Glow(level: real, fading: bool)

  /** The idle, unlit state a cell is created in. */
  const Unlit: Glow := Glow(0.0, false)

  /** triggerGlow: full level and the timer (re)started, whatever came before. */
  function Trigger(g: Glow): (r: Glow)
    ensures r.level == 1.0 && r.fading
  {
    Glow(1.0, true)
  }

  /** onFadeStep: at or below one step the level snaps to 0 and the timer
      stops; above it the level drops by one step and the timer keeps its state. */
  function FadeStep(g: Glow): Glow
  {
    if g.level <= GlowStep then Glow(0.0, false) else Glow(g.level - GlowStep, g.fading)
  }

  /** A timeout of the fade timer: onFadeStep runs only while it is running. */
  function TimerTimeout(g: Glow): Glow
  {
    if g.fading then FadeStep(g) else g
  }

  /** The glow state after n timeouts of the fade timer. */
  function AfterTicks(g: Glow, n: nat): Glow
  {
    if n == 0 then g else TimerTimeout(AfterTicks(g, n - 1))
  }

  /** setGlowLevel, with qFuzzyCompare read as equality: a level equal to the
      current one changes nothing, any other is stored clamped to [0, 1]. */
  function SetLevel(g: Glow, level: real): Glow
  {
    if level == g.level then g else g.(level := Clamp01(level))
  }

  predicate LevelInRange(g: Glow) { 0.0 <= g.level <= 1.0 }

  /** One fade step: above the step the level falls by exactly the step and the
      timer keeps running; at or below it, the level is 0 and the timer stops. */
  lemma FadeStepCases(g: Glow)
    requires g.fading
    ensures g.level > GlowStep ==> TimerTimeout(g) == Glow(g.level - GlowStep, true)
    ensures g.level <= GlowStep ==> TimerTimeout(g) == Glow(0.0, false)
  {
  }

  /** Every transition of the glow machine keeps the level in [0, 1]. */
  lemma GlowStaysInRange(g: Glow, level: real)
    requires LevelInRange(g)
    ensures LevelInRange(Trigger(g))
    ensures LevelInRange(TimerTimeout(g))
    ensures LevelInRange(SetLevel(g, level))
  {
  }

  /** While fading with a positive level, each tick strictly lowers the level;
      an idle machine is left exactly as it is. */
  lemma TickDecreases(g: Glow)
    ensures g.fading && g.level > 0.0 ==> TimerTimeout(g).level < g.level
    ensures !g.fading ==> TimerTimeout(g) == g
  {
  }

  /** From a trigger, the first 24 ticks each remove exactly one step and the
      timer is still running. */
  lemma {:induction false} FadeFromTrigger(g: Glow, k: nat)
    requires k < 25
    ensures AfterTicks(Trigger(g), k) == Glow(1.0 - GlowStep * k as real, true)
  {
    if k > 0 {
      FadeFromTrigger(g, k - 1);
    }
  }

  /** From a trigger, the 25th tick brings the level to exactly 0 and stops the
      timer; later ticks change nothing. */
  lemma {:induction false} FadeStopsAfter25(g: Glow, n: nat)
    requires n >= 25
    ensures AfterTicks(Trigger(g), n) == Glow(0.0, false)
  {
    if n == 25 {
      FadeFromTrigger(g, 24);
    } else {
      FadeStopsAfter25(g, n - 1);
    }
  }

  /** The invariant of a running fade from g: after k ticks the level is g's
      level less k steps and the timer still runs, or the fade has already
      stopped at 0. */
  lemma {:induction false} FadeProgress(g: Glow, k: nat)
    requires g.fading && LevelInRange(g)
    ensures var h := AfterTicks(g, k);
      || (h.fading && h.level == g.level - GlowStep * k as real && h.level >= 0.0 && (k > 0 ==> h.level > 0.0))
      || h == Glow(0.0, false)
  {
    if k > 0 {
      FadeProgress(g, k - 1);
    }
  }

  /** Whatever the level in [0, 1], a running fade is over within 25 ticks,
      leaving level 0 and the timer stopped. */
  lemma FadeTerminates(g: Glow)
    requires g.fading && LevelInRange(g)
    ensures AfterTicks(g, 25) == Glow(0.0, false)
  {
    FadeProgress(g, 25);
  }

  /** The part of a cell the widget and the painter can observe. */
  datatype CellState = CellState(
    heat: int,
    heatMax: int,
    glow: Glow,
    cold: Rgb,
    hot: Rgb,
    highlight: Rgb,
    text: Rgb)

  /** The invariant every cell keeps: a positive heat maximum and a glow
      level in [0, 1]. */
  predicate CellOk(c: CellState)
  {
    c.heatMax >= 1 && LevelInRange(c.glow)
  }

  /** A newly constructed cell. */
  const NewCell: CellState :=
    CellState(0, 1, Unlit, DefaultCold, DefaultHot, DefaultHighlight, White)

  /** setHeat: the count is stored as given, the maximum clamped to at least 1. */
  function WithHeat(c: CellState, count: int, maxCount: int): CellState
  {
    c.(heat := count, heatMax := Max(1, maxCount))
  }

  lemma WithHeatClamps(c: CellState, count: int, maxCount: int)
    ensures WithHeat(c, count, maxCount).heat == count
    ensures WithHeat(c, count, maxCount).heatMax >= 1
    ensures maxCount >= 1 ==> WithHeat(c, count, maxCount).heatMax == maxCount
    ensures maxCount < 1 ==> WithHeat(c, count, maxCount).heatMax == 1
    ensures WithHeat(c, count, maxCount).glow == c.glow
  {
  }

  /** qBound(0, heat / heatMax, 1): how far toward the hot colour a cell is. */
  function HeatFactor(heat: int, heatMax: int): (f: real)
    requires heatMax >= 1
    ensures 0.0 <= f <= 1.0
    ensures heat <= 0 ==> f == 0.0
    ensures heat >= heatMax ==> f == 1.0
    ensures 0 <= heat <= heatMax ==> f * heatMax as real == heat as real
  {
    Clamp01(heat as real / heatMax as real)
  }

  /** The heat-map colour of a cell, before the glow overlay. */
  function BaseColor(c: CellState): Rgb
    requires c.heatMax >= 1
  {
    MixColor(c.cold, c.hot, HeatFactor(c.heat, c.heatMax))
  }

  /** The colour painted for a cell: the heat colour mixed toward the
      highlight colour by the glow level, used both as the overlay's alpha and
      as the blend factor. */
  function DisplayColor(c: CellState): Rgb
    requires c.heatMax >= 1
  {
    MixColor(BaseColor(c), c.highlight, Clamp01(c.glow.level))
  }

  /** The heat colour runs from the cold colour at no presses to the hot
      colour at the maximum, channel by channel between the two. */
  lemma BaseColorEnds(c: CellState)
    requires c.heatMax >= 1
    ensures c.heat <= 0 ==> BaseColor(c) == c.cold
    ensures c.heat >= c.heatMax ==> BaseColor(c) == c.hot
    ensures ChannelsBetween(BaseColor(c), c.cold, c.hot)
  {
  }

  /** With no glow the cell shows its heat colour; at full glow it shows the
      highlight colour; in between, each channel lies between the two. */
  lemma DisplayColorGlow(c: CellState)
    requires c.heatMax >= 1
    ensures c.glow.level <= 0.0 ==> DisplayColor(c) == BaseColor(c)
    ensures c.glow.level >= 1.0 ==> DisplayColor(c) == c.highlight
    ensures ChannelsBetween(DisplayColor(c), BaseColor(c), c.highlight)
  {
  }

  /** A new cell is idle and shows its cold colour. */
  lemma NewCellIsCold()
    ensures CellOk(NewCell) && !NewCell.glow.fading
    ensures DisplayColor(NewCell) == DefaultCold
  {
  }

  /** The key cell widget. Painting, style sheets, fonts and background
      images are not modelled; the glow timer is the fading flag. */
  class KeyButton {
    const caption: string
    var heat: int
    var heatMax: int
    var glowLevel: real
    var fading: bool
    var coldColor: Rgb
    var hotColor: Rgb
    var highlightColor: Rgb
    var textColor: Rgb

    ghost predicate Valid()
      reads this
    {
      CellOk(State())
    }

    function State(): CellState
      reads this
    {
      CellState(heat, heatMax, Glow(glowLevel, fading), coldColor, hotColor, highlightColor, textColor)
    }

    constructor (text: string)
      ensures Valid() && caption == text
      ensures State() == NewCell
    {
      caption := text;
      heat, heatMax := 0, 1;
      glowLevel, fading := 0.0, false;
      coldColor, hotColor, highlightColor, textColor := DefaultCold, DefaultHot, DefaultHighlight, White;
    }

    /** glowLevel(): the stored level, always within [0, 1]. */
    function GlowLevel(): (level: real)
      requires Valid()
      reads this
      ensures 0.0 <= level <= 1.0
      ensures level == State().glow.level
    {
      glowLevel
    }

    method TriggerGlow(durationMs: int := DefaultGlowDurationMs)
      requires Valid()
      modifies this
      ensures Valid()
      ensures State() == old(State()).(glow := Trigger(old(State()).glow))
    {
      glowLevel := 1.0;
      fading := true;
    }

    method SetHeat(count: int, maxCount: int)
      requires Valid()
      modifies this
      ensures Valid()
      ensures State() == WithHeat(old(State()), count, maxCount)
    {
      heat := count;
      heatMax := Max(1, maxCount);
    }

    method SetHeatColors(cold: Rgb, hot: Rgb)
      requires Valid()
      modifies this
      ensures Valid()
      ensures State() == old(State()).(cold := cold, hot := hot)
    {
      coldColor, hotColor := cold, hot;
    }

    method SetHighlightColor(color: Rgb)
      requires Valid()
      modifies this
      ensures Valid()
      ensures State() == old(State()).(highlight := color)
    {
      highlightColor := color;
    }

    method SetBaseTextColor(color: Rgb)
      requires Valid()
      modifies this
      ensures Valid()
      ensures State() == old(State()).(text := color)
    {
      textColor := color;
    }

    method SetGlowLevel(level: real)
      requires Valid()
      modifies this
      ensures Valid()
      ensures State() == old(State()).(glow := SetLevel(old(State()).glow, level))
    {
      if level == glowLevel {
        return;
      }
      glowLevel := Clamp01(level);
    }

    method OnFadeStep()
      requires Valid()
      modifies this
      ensures Valid()
      ensures State() == old(State()).(glow := FadeStep(old(State()).glow))
    {
      if glowLevel <= GlowStep {
        glowLevel := 0.0;
        fading := false;
      } else {
        glowLevel := glowLevel - GlowStep;
      }
    }

    /** A timeout of the glow timer, which is delivered only while it runs. */
    method TimerFired()
      requires Valid()
      modifies this
      ensures Valid()
      ensures State() == old(State()).(glow := TimerTimeout(old(State()).glow))
    {
      if fading {
        OnFadeStep();
      }
    }

    /** The fill colour paintEvent computes. */
    function DisplayedColor(): (color: Rgb)
      requires Valid()
      reads this
      ensures color == DisplayColor(State())
      ensures glowLevel == 0.0 ==> color == BaseColor(State())
      ensures glowLevel == 1.0 ==> color == highlightColor
    {
      DisplayColorGlow(State());
      MixColor(MixColor(coldColor, hotColor, HeatFactor(heat, heatMax)), highlightColor, Clamp01(glowLevel))
    }

    /** The border colour of the pressed style sheet. */
    function PressedBorderColor(): (color: Rgb)
      reads this
      ensures Brightened(highlightColor.red, color.red)
      ensures Brightened(highlightColor.green, color.green)
      ensures Brightened(highlightColor.blue, color.blue)
    {
      PressedBorder(highlightColor)
    }
  }
}
