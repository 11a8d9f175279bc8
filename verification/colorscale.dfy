/**
  `get_net_color`: the background colour of a net-approval cell. The value,
  in percentage points, is divided by 100 and clipped to [-1, 1]; positive
  values fade red and blue from white towards green, and zero or negative
  values fade green and blue towards red, by `int(normalized * 250)` steps.

  Arithmetic is over exact reals, and `int()` is modelled as truncation
  toward zero. The colour is the channel triple before it is formatted as an
  `rgb(...)` string.
 */
module ColorScale {

  datatype Rgb = Rgb(red: int, green: int, blue: int)

  /** The white background every channel starts from. */
  const Base: int := 255
  /** How far a fully saturated value moves a channel away from `Base`. */
  const Intensity: int := 250

  const White: Rgb := Rgb(Base, Base, Base)

  /** Python's `int()` on a float: the integer part, truncating toward zero. */
  function Trunc(x: real): (r: int)
    ensures 0.0 <= x ==> 0 <= r && r as real <= x < r as real + 1.0
    ensures x < 0.0 ==> r <= 0 && r as real - 1.0 < x <= r as real
  {
    if x >= 0.0 then x.Floor else -((-x).Floor)
  }

  /** `np.clip(x, lo, hi)`. */
  function Clip(x: real, lo: real, hi: real): (r: real)
    requires lo <= hi
    ensures lo <= r <= hi
    ensures lo <= x <= hi ==> r == x
    ensures x < lo ==> r == lo
    ensures hi < x ==> r == hi
  {
    if x < lo then lo else if x > hi then hi else x
  }

  /** The value scaled to [-1, 1]. */
  function Normalize(value: real): (n: real)
    ensures -1.0 <= n <= 1.0
    ensures -100.0 <= value <= 100.0 ==> n * 100.0 == value
    ensures value >= 100.0 ==> n == 1.0
    ensures value <= -100.0 ==> n == -1.0
    ensures (n > 0.0) == (value > 0.0)
  {
    Clip(value / 100.0, -1.0, 1.0)
  }

  /** `get_net_color(value)` as a channel triple. */
  function NetColor(value: real): (c: Rgb)
    ensures value > 0.0 ==> c.green == Base && c.red == c.blue
    ensures value <= 0.0 ==> c.red == Base && c.green == c.blue
    ensures Base - Intensity <= c.red <= Base
    ensures Base - Intensity <= c.green <= Base
    ensures Base - Intensity <= c.blue <= Base
  {
    var normalized := Normalize(value);
    if normalized > 0.0 then
      Rgb(Base - Trunc(normalized * Intensity as real), Base, Base - Trunc(normalized * Intensity as real))
    else
      Rgb(Base, Base + Trunc(normalized * Intensity as real), Base + Trunc(normalized * Intensity as real))
  }

  /** How green the colour leans: positive towards green, negative towards red, zero for white. */
  function Greenness(c: Rgb): int {
    c.green - c.red
  }

  /** Truncation is monotone. */
  lemma TruncMonotone(x: real, y: real)
    requires x <= y
    ensures Trunc(x) <= Trunc(y)
  {
  }

  /** Truncation toward zero commutes with negation (rounding down would not). */
  lemma TruncNegate(x: real)
    ensures Trunc(-x) == -Trunc(x)
  {
  }

  /** The channel shift is the truncated scaled value, on whichever side of white the value lies. */
  lemma GreennessIsShift(value: real)
    ensures Greenness(NetColor(value)) == Trunc(Normalize(value) * Intensity as real)
  {
  }

  /**
    The channels in terms of the one-sided clip each side needs: above zero,
    red and blue are 255 less the truncated min(v/100, 1) * 250; at or below
    zero, green and blue are 255 plus the truncated max(v/100, -1) * 250.
   */
  lemma NetColorChannels(value: real)
    ensures value > 0.0 ==>
              var shift := Trunc((if value / 100.0 < 1.0 then value / 100.0 else 1.0) * 250.0);
              NetColor(value) == Rgb(255 - shift, 255, 255 - shift)
    ensures value <= 0.0 ==>
              var shift := Trunc((if value / 100.0 > -1.0 then value / 100.0 else -1.0) * 250.0);
              NetColor(value) == Rgb(255, 255 + shift, 255 + shift)
  {
  }

  /** A larger net value never gives a redder colour. */
  lemma NetColorMonotone(v1: real, v2: real)
    requires v1 <= v2
    ensures Greenness(NetColor(v1)) <= Greenness(NetColor(v2))
  {
  }

  /** Negating the value swaps the red and green channels: the scale is symmetric about white. */
  lemma NetColorMirror(value: real)
    ensures var c, d := NetColor(value), NetColor(-value);
            d == Rgb(c.green, c.red, c.blue)
  {
  }

  /** Zero is white; so is every value within 0.4 of it, where the shift truncates to nothing; no other value is. */
  lemma NetColorWhite(value: real)
    ensures NetColor(0.0) == White
    ensures NetColor(value) == White <==> -0.4 < value < 0.4
  {
  }

  /** Values beyond the clip all share the colour of the clip bound: (5, 255, 5) and (255, 5, 5). */
  lemma NetColorSaturates(value: real)
    ensures value >= 100.0 ==> NetColor(value) == NetColor(100.0) == Rgb(5, 255, 5)
    ensures value <= -100.0 ==> NetColor(value) == NetColor(-100.0) == Rgb(255, 5, 5)
  {
  }

  /** A net of -10 is light red (255, 230, 230), not full red. */
  lemma NetColorOfMinusTen()
    ensures NetColor(-10.0) == Rgb(255, 230, 230)
  {
  }

}
