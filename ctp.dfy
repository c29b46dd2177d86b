/** The board configuration of the controller and the mapping of raw sensor
    coordinates to screen coordinates (ektf2k_ctp_coordinates): scale, then
    revert each axis, then exchange the axes. */
module Ctp {
  import opened Wire

  /** The orientation part of the board configuration (struct ektf2k_ctp_data).
      The C flags are ints tested for non-zero; here they are booleans. */
  datatype CtpConfig = CtpConfig(
    screenMaxX: int,
    screenMaxY: int,
    revertX: bool,
    revertY: bool,
    exchangeXY: bool)
  {
    /** What the configuration parser lets through: both screen maxima are non-zero C ints. */
    predicate Valid() {
      screenMaxX != 0 && screenMaxY != 0 && IsInt32(screenMaxX) && IsInt32(screenMaxY)
    }
  }

  datatype Point = Point(x: int, y: int)

  /** C division of a by a positive b: the quotient is rounded toward zero,
      where Dafny's own `/` rounds toward negative infinity. */
  function CDiv(a: int, b: int): (q: int)
    requires b > 0
    ensures 0 <= a ==> q * b <= a < (q + 1) * b
    ensures a < 0 ==> (q - 1) * b < a <= q * b
  {
    if a >= 0 then a / b else -((-a) / b)
  }

  /** The quotient lies between zero and the dividend. */
  lemma CDivBounds(a: int, b: int)
    requires b > 0
    ensures 0 <= a ==> 0 <= CDiv(a, b) <= a
    ensures a < 0 ==> a <= CDiv(a, b) <= 0
  {
    var q := CDiv(a, b);
    if 0 <= a {
      if q < 0 { MulMono(q + 1, 0, b); }
      MulMono(1, b, q);
    } else {
      if q > 0 { MulMono(0, q - 1, b); }
      MulMono(1, b, -q);
    }
  }

  /** Step 1: integer scaling from sensor units (0..sensorMax) to screen units (0..screenMax). */
  function Scale(v: int, screenMax: int, sensorMax: int): int
    requires sensorMax > 0
  {
    CDiv(v * screenMax, sensorMax)
  }

  /** Step 2: mirror an axis. */
  function Revert(screenMax: int, v: int): int {
    screenMax - v
  }

  /** Step 3: exchange the axes. */
  function Swap(p: Point): Point {
    Point(p.y, p.x)
  }

  /** The products `x * screen_max_x` and `y * screen_max_y` fit in a C int;
      the driver does not check this. Raw coordinates are never negative. */
  predicate ScaleFits(cfg: CtpConfig, p: Point) {
    0 <= p.x && 0 <= p.y && IsInt32(p.x * cfg.screenMaxX) && IsInt32(p.y * cfg.screenMaxY)
  }

  /** ektf2k_ctp_coordinates; xMax and yMax are the sensor width and height. */
  function Normalise(cfg: CtpConfig, p: Point, xMax: int, yMax: int): (r: Point)
    requires cfg.Valid()
    requires xMax > 0 && yMax > 0
    requires ScaleFits(cfg, p)
    ensures IsInt32(r.x) && IsInt32(r.y)
  {
    SignOfProduct(p.x, cfg.screenMaxX);
    SignOfProduct(p.y, cfg.screenMaxY);
    CDivBounds(p.x * cfg.screenMaxX, xMax);
    CDivBounds(p.y * cfg.screenMaxY, yMax);
    var sx := Scale(p.x, cfg.screenMaxX, xMax);
    var sy := Scale(p.y, cfg.screenMaxY, yMax);
    var rx := if cfg.revertX then Revert(cfg.screenMaxX, sx) else sx;
    var ry := if cfg.revertY then Revert(cfg.screenMaxY, sy) else sy;
    if cfg.exchangeXY then Swap(Point(rx, ry)) else Point(rx, ry)
  }

  lemma MulMono(a: int, b: int, s: int)
    requires a <= b && 0 <= s
    ensures a * s <= b * s
  {
  }

  lemma SignOfProduct(v: int, s: int)
    requires 0 <= v
    ensures 0 <= s ==> 0 <= v * s
    ensures s < 0 ==> v * s <= 0
  {
    if s < 0 { MulMono(0, v, -s); } else { MulMono(0, v, s); }
  }

  lemma MulCancel(p: int, q: int, b: int)
    requires b > 0 && p * b < q * b
    ensures p < q
  {
    if p >= q {
      MulMono(q, p, b);
    }
  }

  /** Truncating division by a positive divisor is monotone. */
  lemma {:induction false} CDivMonotone(a: int, c: int, b: int)
    requires b > 0 && a <= c
    ensures CDiv(a, b) <= CDiv(c, b)
  {
    var q1, q2 := CDiv(a, b), CDiv(c, b);
    if 0 <= a || c < 0 {
      MulCancel(q1, q2 + 1, b);
    } else {
      // a < 0 <= c: q1 <= 0 <= q2
      MulCancel(q1 - 1, 0, b);
      if q2 < 0 {
        MulMono(q2 + 1, 0, b);
      }
    }
  }

  /** Scaling is monotone non-decreasing for a positive screen maximum, and
      non-increasing for a negative one. */
  lemma ScaleMonotone(v1: int, v2: int, screenMax: int, sensorMax: int)
    requires sensorMax > 0 && v1 <= v2
    ensures 0 <= screenMax ==> Scale(v1, screenMax, sensorMax) <= Scale(v2, screenMax, sensorMax)
    ensures screenMax <= 0 ==> Scale(v1, screenMax, sensorMax) >= Scale(v2, screenMax, sensorMax)
  {
    if 0 <= screenMax {
      MulMono(v1, v2, screenMax);
      CDivMonotone(v1 * screenMax, v2 * screenMax, sensorMax);
    } else {
      MulMono(v1, v2, -screenMax);
      CDivMonotone(v2 * screenMax, v1 * screenMax, sensorMax);
    }
  }

  /** A raw value inside the sensor range scales into the screen range. */
  lemma ScaleWithinScreen(v: int, screenMax: int, sensorMax: int)
    requires sensorMax > 0 && 0 < screenMax && 0 <= v <= sensorMax
    ensures 0 <= Scale(v, screenMax, sensorMax) <= screenMax
  {
    MulMono(0, v, screenMax);
    MulMono(v, sensorMax, screenMax);
    CDivBounds(v * screenMax, sensorMax);
    var q := CDiv(v * screenMax, sensorMax);
    assert q * sensorMax <= sensorMax * screenMax < (screenMax + 1) * sensorMax;
    MulCancel(q, screenMax + 1, sensorMax);
  }

  /** Reverting twice gives the value back, and reverting keeps [0, screenMax]. */
  lemma RevertInvolutive(screenMax: int, v: int)
    ensures Revert(screenMax, Revert(screenMax, v)) == v
    ensures 0 <= v <= screenMax ==> 0 <= Revert(screenMax, v) <= screenMax
  {
  }

  lemma SwapInvolutive(p: Point)
    ensures Swap(Swap(p)) == p
  {
  }

  /** For a sensor point inside the sensor's width and height, the normalised
      point lies on the screen: in [0, screenMaxX] x [0, screenMaxY], or in the
      exchanged box when the axes are exchanged. */
  lemma NormaliseInBox(cfg: CtpConfig, p: Point, xMax: int, yMax: int)
    requires cfg.Valid() && 0 < cfg.screenMaxX && 0 < cfg.screenMaxY
    requires xMax > 0 && yMax > 0
    requires 0 <= p.x <= xMax && 0 <= p.y <= yMax
    requires ScaleFits(cfg, p)
    ensures var r := Normalise(cfg, p, xMax, yMax);
      if cfg.exchangeXY then 0 <= r.x <= cfg.screenMaxY && 0 <= r.y <= cfg.screenMaxX
      else 0 <= r.x <= cfg.screenMaxX && 0 <= r.y <= cfg.screenMaxY
  {
    ScaleWithinScreen(p.x, cfg.screenMaxX, xMax);
    ScaleWithinScreen(p.y, cfg.screenMaxY, yMax);
  }

  /** The exchange is the last step: it swaps the already scaled and reverted
      axes, so revert_x always mirrors the sensor's x axis against screen_max_x. */
  lemma NormaliseExchangesLast(cfg: CtpConfig, p: Point, xMax: int, yMax: int)
    requires cfg.Valid() && xMax > 0 && yMax > 0 && ScaleFits(cfg, p)
    ensures Normalise(cfg.(exchangeXY := true), p, xMax, yMax)
         == Swap(Normalise(cfg.(exchangeXY := false), p, xMax, yMax))
  {
  }
}
