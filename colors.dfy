/** RGB colours and the arithmetic KeyButton applies to them: the clamped
    per-channel linear interpolation of mixColor and the brightened border
    colour of the pressed style. */
module Colors {
  import opened Numbers

  /** One 8-bit colour channel, as QColor::red/green/blue return it. */
  type Channel = c: int | 0 <= c <= 255

  datatype Rgb = Rgb(red: Channel, green: Channel, blue: Channel)

  const White: Rgb := Rgb(255, 255, 255)

  /** qBound(0.0, x, 1.0): the identity on [0, 1], the nearer end outside it. */
  function Clamp01(x: real): (r: real)
    ensures 0.0 <= r <= 1.0
    ensures 0.0 <= x <= 1.0 ==> r == x
    ensures x < 0.0 ==> r == 0.0
    ensures x > 1.0 ==> r == 1.0
  {
    if x < 0.0 then 0.0 else if x > 1.0 then 1.0 else x
  }

  /** static_cast<int> of a qreal: rounds toward zero. */
  function Truncate(x: real): (r: int)
    ensures 0.0 <= x ==> r as real <= x < r as real + 1.0
    ensures x < 0.0 ==> r as real - 1.0 < x <= r as real
  {
    if x >= 0.0 then x.Floor else -((-x).Floor)
  }

  /** The value of channel a moved a fraction f of the way toward b,
      before truncation. */
  function Lerp(a: Channel, b: Channel, f: real): real
  {
    a as real + (b - a) as real * f
  }

  lemma LerpBetween(a: Channel, b: Channel, f: real)
    requires 0.0 <= f <= 1.0
    ensures Min(a, b) as real <= Lerp(a, b, f) <= Max(a, b) as real
  {
    var d := (b - a) as real;
    var g := 1.0 - f;
    assert d == d * f + d * g;
    if a <= b {
      NonNegativeProduct(d, f);
      NonNegativeProduct(d, g);
    } else {
      NonNegativeProduct(-d, f);
      NonNegativeProduct(-d, g);
    }
  }

  lemma NonNegativeProduct(x: real, y: real)
    requires 0.0 <= x && 0.0 <= y
    ensures 0.0 <= x * y
  {
  }

  /** One channel of mixColor for a factor already clamped to [0, 1]. */
  function MixChannel(a: Channel, b: Channel, f: real): (c: Channel)
    requires 0.0 <= f <= 1.0
    ensures Min(a, b) <= c <= Max(a, b)
  {
    LerpBetween(a, b, f);
    Truncate(Lerp(a, b, f))
  }

  /** Every channel of c lies between the corresponding channels of a and b. */
  predicate ChannelsBetween(c: Rgb, a: Rgb, b: Rgb)
  {
    && Min(a.red, b.red) <= c.red <= Max(a.red, b.red)
    && Min(a.green, b.green) <= c.green <= Max(a.green, b.green)
    && Min(a.blue, b.blue) <= c.blue <= Max(a.blue, b.blue)
  }

  /** KeyButton::mixColor: per-channel linear interpolation from a to b by a
      factor clamped to [0, 1], truncated to an integer channel. */
  function MixColor(a: Rgb, b: Rgb, factor: real): (r: Rgb)
    ensures ChannelsBetween(r, a, b)
    ensures factor <= 0.0 ==> r == a
    ensures factor >= 1.0 ==> r == b
  {
    var f := Clamp01(factor);
    Rgb(MixChannel(a.red, b.red, f), MixChannel(a.green, b.green, f), MixChannel(a.blue, b.blue, f))
  }

  /** A mix of a colour with itself is that colour, whatever the factor. */
  lemma MixSame(a: Rgb, factor: real)
    ensures MixColor(a, a, factor) == a
  {
  }

  /** r is c brightened by 40 and capped at 255, as qMin(255, c + 40). */
  predicate Brightened(c: int, r: int)
  {
    && c <= r
    && (c <= 215 ==> r == c + 40)
    && (c > 215 ==> r == 255)
  }

  /** One channel of the pressed-border colour: qMin(255, c + 40). */
  function PressedChannel(c: Channel): (r: Channel)
    ensures c <= r
    ensures c <= 215 ==> r == c + 40
    ensures c > 215 ==> r == 255
  {
    Min(255, c + 40)
  }

  /** The border colour of the pressed style, brightened from the glow colour
      channel by channel and capped at 255. */
  function PressedBorder(glow: Rgb): (r: Rgb)
    ensures Brightened(glow.red, r.red)
    ensures Brightened(glow.green, r.green)
    ensures Brightened(glow.blue, r.blue)
  {
    Rgb(PressedChannel(glow.red), PressedChannel(glow.green), PressedChannel(glow.blue))
  }
}
