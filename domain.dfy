/**
 * The value domain of msiklm.h: channel bytes, the colour struct and the four
 * enumerations with the numeric codes that appear on the wire.
 */
module Domain {
  import opened Wrappers

  /** `typedef unsigned char byte` */
  type Byte = x: int | 0 <= x < 256

  /** An 8-byte feature report, as sent to the keyboard. */
  type Frame = seq<Byte>

  /**
   * `struct color` without its `profile` field: the parser never assigns it and
   * the encoder never reads it, so only the three channels are modelled.
   */
  datatype Color = Color(red: Byte, green: Byte, blue: Byte)

  const Black := Color(0, 0, 0)

  /** The raw-RGB command byte; `custom` and `rgb` share this value. */
  const CUSTOM: int := 64

  /** `enum color_profile` */
  datatype ColorProfile = NoColor | Red | Orange | Yellow | Green | Sky | Blue | Purple | White | Custom
  {
    function Code(): (c: int)
      ensures 0 <= c <= 8 || c == CUSTOM
    {
      match this
      case NoColor => 0
      case Red => 1
      case Orange => 2
      case Yellow => 3
      case Green => 4
      case Sky => 5
      case Blue => 6
      case Purple => 7
      case White => 8
      case Custom => CUSTOM
    }
  }

  /** Inverse of `ColorProfile.Code`: the enumerator with a given numeric value. */
  function ProfileOfCode(n: int): (r: Option<ColorProfile>)
    ensures r.Some? <==> (0 <= n <= 8 || n == CUSTOM)
    ensures r.Some? ==> r.value.Code() == n
  {
    if n == 0 then Some(NoColor)
    else if n == 1 then Some(Red)
    else if n == 2 then Some(Orange)
    else if n == 3 then Some(Yellow)
    else if n == 4 then Some(Green)
    else if n == 5 then Some(Sky)
    else if n == 6 then Some(Blue)
    else if n == 7 then Some(Purple)
    else if n == 8 then Some(White)
    else if n == CUSTOM then Some(Custom)
    else None
  }

  /** `enum region`: the code is the target byte of a colour frame. */
  datatype Region = Left | Middle | Right | Logo | FrontLeft | FrontRight | Mouse
  {
    function Code(): (c: int)
      ensures 1 <= c <= 7
    {
      match this
      case Left => 1
      case Middle => 2
      case Right => 3
      case Logo => 4
      case FrontLeft => 5
      case FrontRight => 6
      case Mouse => 7
    }
  }

  /** True of exactly the values that `set_color` accepts as a region. */
  predicate IsRegionCode(n: int)
  {
    n == Left.Code() || n == Middle.Code() || n == Right.Code() || n == Logo.Code()
    || n == FrontLeft.Code() || n == FrontRight.Code() || n == Mouse.Code()
  }

  /** Inverse of `Region.Code`. */
  function RegionOfCode(n: int): (r: Option<Region>)
    ensures r.Some? <==> 1 <= n <= 7
    ensures r.Some? <==> IsRegionCode(n)
    ensures r.Some? ==> r.value.Code() == n
  {
    if n == 1 then Some(Left)
    else if n == 2 then Some(Middle)
    else if n == 3 then Some(Right)
    else if n == 4 then Some(Logo)
    else if n == 5 then Some(FrontLeft)
    else if n == 6 then Some(FrontRight)
    else if n == 7 then Some(Mouse)
    else None
  }

  /** `enum brightness`; `rgb` is defined as `custom`. */
  datatype Brightness = High | Medium | Low | Off | Rgb
  {
    function Code(): (c: int)
      ensures 0 <= c <= 3 || c == CUSTOM
    {
      match this
      case High => 0
      case Medium => 1
      case Low => 2
      case Off => 3
      case Rgb => CUSTOM
    }
  }

  /** Inverse of `Brightness.Code`. */
  function BrightnessOfCode(n: int): (r: Option<Brightness>)
    ensures r.Some? <==> (0 <= n <= 3 || n == CUSTOM)
    ensures r.Some? ==> r.value.Code() == n
  {
    if n == 0 then Some(High)
    else if n == 1 then Some(Medium)
    else if n == 2 then Some(Low)
    else if n == 3 then Some(Off)
    else if n == CUSTOM then Some(Rgb)
    else None
  }

  /** `enum mode`: the code is the target byte of a mode frame. */
  datatype Mode = Normal | Gaming | Breathe | Demo | Wave
  {
    function Code(): (c: int)
      ensures 1 <= c <= 5
    {
      match this
      case Normal => 1
      case Gaming => 2
      case Breathe => 3
      case Demo => 4
      case Wave => 5
    }
  }

  /** True of exactly the values that `set_mode` accepts. */
  predicate IsModeCode(n: int)
  {
    n == Normal.Code() || n == Gaming.Code() || n == Breathe.Code() || n == Demo.Code() || n == Wave.Code()
  }

  /** Inverse of `Mode.Code`. */
  function ModeOfCode(n: int): (r: Option<Mode>)
    ensures r.Some? <==> 1 <= n <= 5
    ensures r.Some? <==> IsModeCode(n)
    ensures r.Some? ==> r.value.Code() == n
  {
    if n == 1 then Some(Normal)
    else if n == 2 then Some(Gaming)
    else if n == 3 then Some(Breathe)
    else if n == 4 then Some(Demo)
    else if n == 5 then Some(Wave)
    else None
  }

  /** The numeric codes of each enumeration are pairwise distinct. */
  lemma CodesInjective()
    ensures forall p: ColorProfile, q: ColorProfile :: p.Code() == q.Code() ==> p == q
    ensures forall z: Region, w: Region :: z.Code() == w.Code() ==> z == w
    ensures forall b: Brightness, c: Brightness :: b.Code() == c.Code() ==> b == c
    ensures forall m: Mode, n: Mode :: m.Code() == n.Code() ==> m == n
  {
    forall p: ColorProfile ensures ProfileOfCode(p.Code()) == Some(p) { match p { case _ => } }
    forall z: Region ensures RegionOfCode(z.Code()) == Some(z) { match z { case _ => } }
    forall b: Brightness ensures BrightnessOfCode(b.Code()) == Some(b) { match b { case _ => } }
    forall m: Mode ensures ModeOfCode(m.Code()) == Some(m) { match m { case _ => } }
  }
}
