/**
 * The hidapi side of msiklm.c: opening the keyboard, and `set_color` and
 * `set_mode`, which fill an 8-byte buffer and send it as a feature report.
 *
 * The HID library and the one handle the program holds are a `Hid` object.
 * Which devices are attached and whether `hid_init` succeeds are fixed when
 * the object is made; every feature report sent is appended to `frames`.
 */
module Device {
  import opened Domain
  import opened Frames

  /** USB vendor and product id of the SteelSeries keyboard. */
  const VENDOR_ID := 0x1770
  const PRODUCT_ID := 0xff00

  class Hid {
    /** Whether `hid_init` returns 0. */
    const initSucceeds: bool
    /** The (vendor, product) pairs of the attached HID devices. */
    const attached: set<(int, int)>
    /** The library has been initialised and not yet exited. */
    var initialised: bool
    /** A handle to the keyboard is open. */
    var isOpen: bool
    /** Every feature report sent, oldest first. */
    var frames: seq<Frame>

    predicate KeyboardAttached()
    {
      (VENDOR_ID, PRODUCT_ID) in attached
    }

    constructor(initSucceeds: bool, attached: set<(int, int)>)
      ensures this.initSucceeds == initSucceeds && this.attached == attached
      ensures !initialised && !isOpen && frames == []
    {
      this.initSucceeds := initSucceeds;
      this.attached := attached;
      initialised := false;
      isOpen := false;
      frames := [];
    }

    /** `hid_init`: 0 on success, -1 otherwise. */
    method Init() returns (r: int)
      modifies this
      ensures r == 0 <==> initSucceeds
      ensures r == 0 || r == -1
      ensures initialised == (old(initialised) || initSucceeds)
      ensures isOpen == old(isOpen) && frames == old(frames)
    {
      if initSucceeds {
        initialised := true;
        r := 0;
      } else {
        r := -1;
      }
    }

    /** `hid_open(vendor, product, 0)`: true when a handle was obtained. */
    method Open(vendor: int, product: int) returns (found: bool)
      modifies this
      ensures found <==> initialised && (vendor, product) in attached
      ensures isOpen == found
      ensures initialised == old(initialised) && frames == old(frames)
    {
      found := initialised && (vendor, product) in attached;
      isOpen := found;
    }

    /** `hid_send_feature_report(dev, data, length)`: the number of bytes written. */
    method SendFeatureReport(data: array<Byte>, length: nat) returns (n: int)
      requires isOpen && length <= data.Length
      modifies this
      ensures n == length
      ensures frames == old(frames) + [data[..length]]
      ensures initialised == old(initialised) && isOpen == old(isOpen)
    {
      frames := frames + [data[..length]];
      n := length;
    }

    /** `hid_close`. */
    method Close()
      requires isOpen
      modifies this
      ensures !isOpen
      ensures initialised == old(initialised) && frames == old(frames)
    {
      isOpen := false;
    }

    /** `hid_exit`. */
    method Exit()
      modifies this
      ensures !initialised
      ensures isOpen == old(isOpen) && frames == old(frames)
    {
      initialised := false;
    }
  }

  /** `open_keyboard`: initialise the library, then open the keyboard by its ids. */
  method OpenKeyboard(hid: Hid) returns (found: bool)
    modifies hid
    ensures found <==> hid.initSucceeds && hid.KeyboardAttached() && (old(hid.initialised) || hid.initSucceeds)
    ensures hid.isOpen == (if hid.initSucceeds then found else old(hid.isOpen))
    ensures hid.initialised == (old(hid.initialised) || hid.initSucceeds)
    ensures hid.frames == old(hid.frames)
  {
    var r := hid.Init();
    if r == 0 {
      found := hid.Open(VENDOR_ID, PRODUCT_ID);
    } else {
      found := false;
    }
  }

  /** `keyboard_found`: open the keyboard and close it again; nothing is sent. */
  method KeyboardFound(hid: Hid) returns (found: bool)
    modifies hid
    ensures found <==> hid.initSucceeds && hid.KeyboardAttached()
    ensures hid.isOpen == (!hid.initSucceeds && old(hid.isOpen))
    ensures hid.initialised == (old(hid.initialised) || hid.initSucceeds)
    ensures hid.frames == old(hid.frames)
  {
    found := OpenKeyboard(hid);
    if found {
      hid.Close();
    }
  }

  /**
   * `set_color`: for a valid region, dim the colour, fill the buffer and send
   * it; -1 and nothing sent for any other region.
   */
  method SetColor(hid: Hid, color: Color, region: int, brightness: int) returns (ret: int)
    requires hid.isOpen
    modifies hid
    ensures ColorFrame(color, region, brightness).Ok? ==>
      ret == FRAME_LENGTH && hid.frames == old(hid.frames) + [ColorFrame(color, region, brightness).value]
    ensures ColorFrame(color, region, brightness).Err? ==> ret == -1 && hid.frames == old(hid.frames)
    ensures hid.isOpen && hid.initialised == old(hid.initialised)
  {
    if region == Left.Code() || region == Middle.Code() || region == Right.Code() || region == Logo.Code()
       || region == FrontLeft.Code() || region == FrontRight.Code() || region == Mouse.Code()
    {
      var red, green, blue := color.red, color.green, color.blue;
      if brightness == Medium.Code() || brightness == Low.Code() || brightness == Off.Code() {
        red := DimChannel(red, brightness);
        green := DimChannel(green, brightness);
        blue := DimChannel(blue, brightness);
      }
      assert Color(red, green, blue) == Dimmed(color, brightness);
      var buffer := new Byte[FRAME_LENGTH];
      buffer[0] := REPORT_ID;
      buffer[1] := REPORT_TYPE;
      buffer[2] := RGB_COMMAND;
      buffer[3] := region;
      buffer[4] := red;
      buffer[5] := green;
      buffer[6] := blue;
      buffer[7] := END_OF_REQUEST;
      assert buffer[..FRAME_LENGTH] == [REPORT_ID, REPORT_TYPE, RGB_COMMAND, region, red, green, blue, END_OF_REQUEST];
      ret := hid.SendFeatureReport(buffer, FRAME_LENGTH);
    } else {
      ret := -1;
    }
  }

  /** `set_mode`: -1 for a value outside normal..wave, otherwise send the commit frame. */
  method SetMode(hid: Hid, mode: int) returns (ret: int)
    requires hid.isOpen
    modifies hid
    ensures ModeFrame(mode).Ok? ==> ret == FRAME_LENGTH && hid.frames == old(hid.frames) + [ModeFrame(mode).value]
    ensures ModeFrame(mode).Err? ==> ret == -1 && hid.frames == old(hid.frames)
    ensures hid.isOpen && hid.initialised == old(hid.initialised)
  {
    if mode != Normal.Code() && mode != Gaming.Code() && mode != Breathe.Code() && mode != Demo.Code()
       && mode != Wave.Code()
    {
      return -1;
    }
    var buffer := new Byte[FRAME_LENGTH];
    buffer[0] := REPORT_ID;
    buffer[1] := REPORT_TYPE;
    buffer[2] := COMMIT_COMMAND;
    buffer[3] := mode;
    buffer[4] := 0;
    buffer[5] := 0;
    buffer[6] := 0;
    buffer[7] := END_OF_REQUEST;
    assert buffer[..FRAME_LENGTH] == ModeFrame(mode).value;
    ret := hid.SendFeatureReport(buffer, FRAME_LENGTH);
  }
}
