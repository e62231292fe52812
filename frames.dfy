/**
 * The two 8-byte feature reports that `set_color` and `set_mode` in msiklm.c
 * build, split out of the functions that send them.
 *
 *   colour:  [1, 2, 64, region, red', green', blue', 236]
 *   mode:    [1, 2, 65, mode,   0,    0,      0,     236]
 *
 * where red', green', blue' are the channels after software dimming.
 */
module Frames {
  import opened Wrappers
  import opened Domain

  const REPORT_ID: Byte := 1
  const REPORT_TYPE: Byte := 2
  /** Byte 2 of a colour frame: raw RGB, the value of `custom`. */
  const RGB_COMMAND: Byte := CUSTOM
  /** Byte 2 of a mode frame: commit. */
  const COMMIT_COMMAND: Byte := 65
  /** Byte 7 of every frame: end of request. */
  const END_OF_REQUEST: Byte := 236
  const FRAME_LENGTH := 8

  datatype FrameError = InvalidRegion | InvalidMode

  /** True of the brightness codes for which `set_color` dims the channels. */
  predicate Dims(brightness: int)
  {
    brightness == Medium.Code() || brightness == Low.Code() || brightness == Off.Code()
  }

  /**
   * One channel after dimming: scaled by (3 - brightness) / 3 and truncated
   * for `medium`, `low` and `off`; any other brightness (`high`, `rgb`, or a
   * value outside the enumeration) leaves it as it is.
   */
  function DimChannel(c: Byte, brightness: int): (d: Byte)
    ensures d <= c
    ensures !Dims(brightness) ==> d == c
    ensures brightness == Off.Code() ==> d == 0
    ensures Dims(brightness) ==> 3 * d <= c * (3 - brightness) < 3 * d + 3
  {
    if Dims(brightness) then c * (3 - brightness) / 3 else c
  }

  /** The colour `set_color` writes into the frame. */
  function Dimmed(color: Color, brightness: int): Color
  {
    Color(DimChannel(color.red, brightness), DimChannel(color.green, brightness), DimChannel(color.blue, brightness))
  }

  /** What a colour frame tells the keyboard. */
  datatype ColorCommand = ColorCommand(region: int, color: Color)

  /**
   * The buffer `set_color` sends. A region outside left..mouse is an error,
   * and nothing is built.
   */
  function ColorFrame(color: Color, region: int, brightness: int): (r: Result<Frame, FrameError>)
    ensures r.Ok? <==> IsRegionCode(region)
    ensures r.Err? ==> r.error == InvalidRegion
    ensures r.Ok? ==> DecodeColorFrame(r.value) == Some(ColorCommand(region, Dimmed(color, brightness)))
  {
    if !IsRegionCode(region) then Err(InvalidRegion)
    else
      var c := Dimmed(color, brightness);
      Ok([REPORT_ID, REPORT_TYPE, RGB_COMMAND, region, c.red, c.green, c.blue, END_OF_REQUEST])
  }

  /** Reads a colour frame back: header, raw-RGB command, a valid region and the end marker. */
  function DecodeColorFrame(f: Frame): Option<ColorCommand>
  {
    if |f| == FRAME_LENGTH && f[0] == REPORT_ID && f[1] == REPORT_TYPE && f[2] == RGB_COMMAND
       && IsRegionCode(f[3]) && f[7] == END_OF_REQUEST
    then Some(ColorCommand(f[3], Color(f[4], f[5], f[6])))
    else None
  }

  /** The buffer `set_mode` sends. A mode outside normal..wave is an error. */
  function ModeFrame(mode: int): (r: Result<Frame, FrameError>)
    ensures r.Ok? <==> IsModeCode(mode)
    ensures r.Err? ==> r.error == InvalidMode
    ensures r.Ok? ==> DecodeModeFrame(r.value) == Some(mode)
  {
    if !IsModeCode(mode) then Err(InvalidMode)
    else Ok([REPORT_ID, REPORT_TYPE, COMMIT_COMMAND, mode, 0, 0, 0, END_OF_REQUEST])
  }

  /** Reads a mode frame back. */
  function DecodeModeFrame(f: Frame): Option<int>
  {
    if |f| == FRAME_LENGTH && f[0] == REPORT_ID && f[1] == REPORT_TYPE && f[2] == COMMIT_COMMAND
       && IsModeCode(f[3]) && f[4] == 0 && f[5] == 0 && f[6] == 0 && f[7] == END_OF_REQUEST
    then Some(f[3])
    else None
  }

  /** Every decodable colour frame is the one `set_color` builds at full brightness. */
  lemma ColorFrameComplete(f: Frame)
    requires DecodeColorFrame(f).Some?
    ensures var cmd := DecodeColorFrame(f).value;
      ColorFrame(cmd.color, cmd.region, High.Code()) == Ok(f)
  {
    var cmd := DecodeColorFrame(f).value;
    assert f == [f[0], f[1], f[2], f[3], f[4], f[5], f[6], f[7]];
    assert Dimmed(cmd.color, High.Code()) == cmd.color;
    assert ColorFrame(cmd.color, cmd.region, High.Code()).value == [f[0], f[1], f[2], f[3], f[4], f[5], f[6], f[7]];
  }

  /** Every decodable mode frame is the one `set_mode` builds. */
  lemma ModeFrameComplete(f: Frame)
    requires DecodeModeFrame(f).Some?
    ensures ModeFrame(DecodeModeFrame(f).value) == Ok(f)
  {
    assert f == [f[0], f[1], f[2], f[3], f[4], f[5], f[6], f[7]];
    assert ModeFrame(f[3]).value == [f[0], f[1], f[2], f[3], f[4], f[5], f[6], f[7]];
  }

  /** At full brightness (and with `rgb`) the frame carries the channels unchanged. */
  lemma UndimmedRoundTrip(color: Color, region: Region, brightness: Brightness)
    requires brightness == High || brightness == Rgb
    ensures ColorFrame(color, region.Code(), brightness.Code()).Ok?
    ensures DecodeColorFrame(ColorFrame(color, region.Code(), brightness.Code()).value) ==
      Some(ColorCommand(region.Code(), color))
  {
  }

  /** With `off` every channel of the frame is zero, whatever the colour. */
  lemma OffIsDark(color: Color, region: int)
    requires IsRegionCode(region)
    ensures var f := ColorFrame(color, region, Off.Code()).value;
      f[4] == 0 && f[5] == 0 && f[6] == 0
  {
    var f := ColorFrame(color, region, Off.Code()).value;
    assert DecodeColorFrame(f).value.color == Black;
  }

  /** A lower brightness level never gives a brighter channel: high >= medium >= low >= off. */
  lemma DimmingMonotone(c: Byte, b1: int, b2: int)
    requires 0 <= b1 <= b2 <= 3
    ensures DimChannel(c, b2) <= DimChannel(c, b1)
  {
    if b1 > 0 {
      var x1, x2 := c * (3 - b1), c * (3 - b2);
      assert x2 <= x1 by {
        assert x1 - x2 == c * (b2 - b1);
      }
      DivMonotone(x2, x1);
    }
  }

  lemma DivMonotone(x: nat, y: nat)
    requires x <= y
    ensures x / 3 <= y / 3
  {
  }

  /**
   * The C code dims with `double factor = brightness / (-3.0) + 1.0` and casts
   * `factor * c` to a byte. For `medium` and `low` this agrees with the integer
   * formula as long as the factor lies within 1/1000 above the exact ratio
   * (3 - brightness) / 3, as the two IEEE doubles do. The product here is the
   * exact real product: the rounding of the double `factor * c` is not part of
   * this lemma.
   */
  lemma FactorTruncation(c: Byte, brightness: int, factor: real)
    requires brightness == Medium.Code() || brightness == Low.Code()
    requires (3 - brightness) as real / 3.0 <= factor < (3 - brightness) as real / 3.0 + 1.0 / 1000.0
    ensures (factor * c as real).Floor == DimChannel(c, brightness)
  {
    var k := 3 - brightness;
    var lo := k as real / 3.0;
    ExactRatio(c, k);
    ErrorBound(factor - lo, c);
    Distribute(factor, lo, c as real);
    FloorSplit(factor * c as real, lo * c as real, (factor - lo) * c as real, c * k / 3, c * k % 3);
  }

  /** The exact ratio `k / 3` times a channel value is the integer quotient plus thirds. */
  lemma ExactRatio(c: Byte, k: int)
    requires k == 1 || k == 2
    ensures k as real / 3.0 * c as real == (c * k / 3) as real + (c * k % 3) as real / 3.0
  {
    var n := c * k;
    assert n == 3 * (n / 3) + n % 3;
    if k == 2 {
      assert 2.0 / 3.0 * c as real == n as real / 3.0;
    } else {
      assert 1.0 / 3.0 * c as real == n as real / 3.0;
    }
  }

  /** A non-negative error of at most a thousandth on a byte stays below 0.256. */
  lemma ErrorBound(d: real, c: Byte)
    requires 0.0 <= d <= 1.0 / 1000.0
    ensures 0.0 <= d * c as real <= 255.0 / 1000.0
  {
    ErrorSteps(d, c);
  }

  /** A non-negative error of at most a thousandth, taken `c` times, stays within `c` thousandths. */
  lemma {:induction false} ErrorSteps(d: real, c: nat)
    requires 0.0 <= d <= 1.0 / 1000.0
    ensures 0.0 <= d * c as real <= c as real / 1000.0
  {
    if c > 0 {
      ErrorSteps(d, c - 1);
      assert d * c as real == d * (c - 1) as real + d;
    }
  }

  /** Multiplication distributes over the split of a factor into a base and a rest. */
  lemma Distribute(a: real, b: real, x: real)
    ensures a * x == b * x + (a - b) * x
  {
  }

  /** An integer plus at most two thirds plus a small error floors to that integer. */
  lemma FloorSplit(x: real, b: real, e: real, q: int, m: int)
    requires x == b + e && b == q as real + m as real / 3.0
    requires 0 <= m < 3 && 0.0 <= e <= 255.0 / 1000.0
    ensures x.Floor == q
  {
  }

  /** A colour frame and a mode frame are never the same bytes: byte 2 tells them apart. */
  lemma FrameKindsDistinct(color: Color, region: int, brightness: int, mode: int)
    requires ColorFrame(color, region, brightness).Ok? && ModeFrame(mode).Ok?
    ensures ColorFrame(color, region, brightness).value != ModeFrame(mode).value
  {
    assert ColorFrame(color, region, brightness).value[2] != ModeFrame(mode).value[2];
  }
}
