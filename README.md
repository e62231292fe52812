# MSIKLM keyboard protocol, modelled in Dafny

MSIKLM configures the SteelSeries RGB keyboard of MSI gaming notebooks from the
command line. `msiklm <colors> [<brightness>] [<mode>]` takes a comma-separated
list of up to seven colours. Each colour is a name such as `red` or a
bracketed triple `[r;g;b]`. The program sends one 8-byte HID feature report per
keyboard region, then one report that commits a mode (`normal`, `gaming`,
`breathe`, `demo` or `wave`). A single colour is used for the first three
regions. The brightness `medium`, `low` or `off` dims the channels in software
before they are sent. `msiklm <mode>`, `msiklm help`, `msiklm test` and
`msiklm list` are the one-word forms.

The project models this protocol layer:

- `Domain` (`src/msiklm.h`): the colour, region, brightness and mode
  enumerations with their wire codes, and the colour record.
- `CLib`: the two C library routines the parsers depend on, `strtok_r`
  (`StrTok`, `TokensFrom`, `Split`) and base-10 `strtol` (`StrToL`).
- `Parsers` (`src/msiklm.c`): `parse_color`, `parse_brightness` and
  `parse_mode`.
- `Frames` (`src/msiklm.c`): the two frames `set_color` and `set_mode` build,
  as pure functions with decoders, and the dimming arithmetic.
- `Device` (`src/msiklm.c`): the HID library as a class `Hid`. It logs every
  frame sent and decides whether a keyboard is found. `open_keyboard`,
  `keyboard_found`, `set_color` and `set_mode` are module-level methods that
  take the `Hid` as a parameter.
- `Invocation` (`src/main.c`): `main`. `PlanOf` states what a command line
  does: send colours, brightness and mode, run an administrative command, or
  reject. `Run` is the program itself: the colour loop over an array of seven
  slots, the `switch` on `argc` and the send loop. Its contract says that it
  carries out `PlanOf` on a `Hid`.
- `Plans`: what `PlanOf` means for whole command lines. It covers keyword
  lists, the one-word forms, the argument order, extra arguments, and the
  invariant stated before sending.

These behaviours of the C program are modelled as written:
- A colour list made only of commas, or empty, is accepted with no colours, so
  only the mode frame is sent (`Plans.EmptyList`).
- With more than three arguments, `main` prints an error but does not reset its
  exit code, so an accepted colour list is still sent at `high`/`normal`
  (`Plans.ExtraArguments`).
- A bracket without its closing `]` is accepted (`Parsers.MissingCloseAccepted`),
  and so are doubled `;`, a leading blank and a `+` sign (`Parsers.LenientNotation`).
- The third `strtok_r` call splits on `]`, so any run of `]` in front of the
  blue number is skipped: `[1;2;]3` and `[1;2;]]3]` are accepted as (1, 2, 3)
  (`Parsers.EarlyCloseAccepted`).
- `msiklm test` calls `hid_init` but never `hid_exit`, which `main` calls only
  in the send block. So `test` leaves the HID library initialised, while every
  other path that initialises it also exits it (`Invocation.Run`).

## Model

| member | source | states |
|---|---|---|
| Domain.ColorProfile.Code | src/msiklm.h:22-34 | every colour profile code is 0..8 or `custom` = 64 |
| Domain.ProfileOfCode | src/msiklm.h:22-34 | an integer names a profile exactly when it is 0..8 or 64, and that profile has that code |
| Domain.Region.Code | src/msiklm.h:50-59 | region codes run from left = 1 to mouse = 7 |
| Domain.RegionOfCode | src/msiklm.h:50-59 | an integer names a region exactly when it is 1..7, and that region has that code |
| Domain.Brightness.Code | src/msiklm.h:64-71 | brightness codes are high..off = 0..3 or `rgb` = `custom` = 64 |
| Domain.BrightnessOfCode | src/msiklm.h:64-71 | an integer names a brightness exactly when it is 0..3 or 64, and that brightness has that code |
| Domain.Mode.Code | src/msiklm.h:76-83 | mode codes run from normal = 1 to wave = 5 |
| Domain.ModeOfCode | src/msiklm.h:76-83 | an integer names a mode exactly when it is 1..5, and that mode has that code |
| Domain.CodesInjective | src/msiklm.h:22-83 | no two members of one enumeration share a code |
| CLib.StrTok | src/main.c:109-116 | `strtok_r` skips leading separators; it returns no token exactly when only separators remain; a token is a maximal run of non-separators; the resume position is one past the separator that ends it, or the end of the string |
| CLib.TokensAreWords | src/main.c:109-116 | every token `strtok_r` yields is non-empty and contains no separator |
| CLib.TokensFromNext | src/main.c:109-116 | each call of `strtok_r(NULL, …)` yields the next token of the list, and tokenising from its resume point yields the rest |
| CLib.TokensFromEnd | src/main.c:109-110 | when `strtok_r` yields nothing, every token has been read |
| CLib.SplitJoin | src/main.c:109-116 | tokenising separator-joined words gives back the words (round trip) |
| CLib.SplitWord | src/main.c:109 | a non-empty argument without a separator is a single token |
| CLib.StrToL | src/msiklm.c:131 | base-10 `strtol` stops inside the string; a conversion that stops at the start yields 0; one that stops later stops just after a digit; a negative value needs a `-` |
| CLib.StrToLDecimal | src/msiklm.c:131 | `strtol` reads back the decimal writing of every integer and stops at the first non-digit (round trip) |
| CLib.DecimalRoundTrip | src/msiklm.c:131 | the digit string of a natural number has that value |
| CLib.StrToLLenient | src/msiklm.c:131-143 | `strtol` accepts a leading blank or `+` before the digits |
| Parsers.ParseColor | src/msiklm.c:18-157 | `parse_color` returns 0 or -1; a NULL string returns -1 and leaves `*result` as it was |
| Parsers.ParseKeyword | src/msiklm.c:23-120 | a string not starting with `[` is accepted exactly when it is one of the ten colour names; the channels become that name's fixed triple, and are untouched on failure |
| Parsers.ParseBracket | src/msiklm.c:122-153 | the bracket branch returns 0 or -1, and the blue channel is written only on success |
| Parsers.ParseTriple | src/msiklm.c:122-153 | `[x;y;z` plus a tail is accepted exactly when x, y and z are in 0..255 and the tail is at most `]`; a failure keeps the channels already accepted (red, then green) |
| Parsers.BracketRoundTrip | src/msiklm.c:122-148 | `[r;g;b]` written in decimal parses to exactly (r, g, b) for every r, g, b in 0..255 |
| Parsers.BracketRange | src/msiklm.c:132-144 | `[x;y;z]` is accepted exactly when all three components are in 0..255 |
| Parsers.TrailingTextRejected | src/msiklm.c:143-144 | any text after a `]` that follows the third number is rejected |
| Parsers.MissingCloseAccepted | src/msiklm.c:143-144 | `[r;g;b` without `]` is accepted with the same colour |
| Parsers.EarlyCloseAccepted | src/msiklm.c:143-144 | one or more `]` between the second `;` and the blue number are skipped: `[r;g;]b` and `[r;g;]b]` are accepted as (r, g, b) |
| Parsers.AcceptedHasTwoSeparators | src/msiklm.c:131-144 | an accepted bracket has at least two `;`, so fewer than three components is rejected |
| Parsers.FourthComponentRejected | src/msiklm.c:143-144 | `[x;y;z;w]` is rejected |
| Parsers.LenientNotation | src/msiklm.c:131-144 | `[;` blank r `;;+` g `;` b `]` is accepted as (r, g, b): doubled separators, a leading blank and a `+` are tolerated |
| Parsers.AcceptedIgnoresPrior | src/msiklm.c:18-157 | an accepted colour does not depend on what `*result` held before |
| Parsers.ParseBrightness | src/msiklm.c:164-193 | a brightness is returned exactly for the case-sensitive words high, medium, low, off, with their values; `rgb` is never returned |
| Parsers.ParseMode | src/msiklm.c:200-234 | a mode is returned exactly for the words normal, gaming, breathe, demo, wave, with their values |
| Frames.DimChannel | src/msiklm.c:274-281 | a dimmed channel is never brighter than the original; it is unchanged unless the brightness is medium, low or off; it is zero for off; otherwise it is the floor of c·(3 - brightness)/3 |
| Frames.ColorFrame | src/msiklm.c:269-312 | the colour frame exists exactly for regions 1..7, otherwise it is an invalid-region error; it decodes to its region and the dimmed colour |
| Frames.ModeFrame | src/msiklm.c:320-337 | the mode frame exists exactly for modes 1..5, otherwise it is an invalid-mode error; it decodes to its mode |
| Frames.ColorFrameComplete | src/msiklm.c:283-291 | every well-formed colour frame `[1,2,64,region,r,g,b,236]` is the frame of its region and colour (encode after decode) |
| Frames.ModeFrameComplete | src/msiklm.c:327-336 | every well-formed mode frame `[1,2,65,mode,0,0,0,236]` is the frame of its mode (encode after decode) |
| Frames.UndimmedRoundTrip | src/msiklm.c:274-291 | at `high` or `rgb` the channels reach the frame unchanged |
| Frames.OffIsDark | src/msiklm.c:274-281 | at `off` the three channel bytes are 0 |
| Frames.DimmingMonotone | src/msiklm.c:274-281 | a dimmer brightness never gives a brighter channel |
| Frames.FactorTruncation | src/msiklm.c:276-280 | truncating the exact real product `factor * c` gives the integer dimming, provided the factor lies less than 1/1000 above the exact ratio (3 - brightness)/3 |
| Frames.FrameKindsDistinct | src/msiklm.c:283-333 | a colour frame and a mode frame always differ (byte 2) |
| Device.Hid.Init | src/msiklm.c:256 | `hid_init` returns 0 exactly when the library initialises, -1 otherwise |
| Device.Hid.Open | src/msiklm.c:257 | `hid_open` finds a device exactly when the library is initialised and the device is attached, and then holds it open |
| Device.Hid.SendFeatureReport | src/msiklm.c:293 | the report is appended to the log of frames sent and its length is returned |
| Device.Hid.Close | src/msiklm.c:245 | `hid_close` releases the handle |
| Device.Hid.Exit | src/main.c:285 | `hid_exit` ends the library session |
| Device.OpenKeyboard | src/msiklm.c:253-259 | the keyboard 0x1770:0xff00 opens exactly when `hid_init` succeeds and it is attached; when `hid_init` fails the handle state is unchanged; no frame is sent |
| Device.KeyboardFound | src/msiklm.c:240-247 | `keyboard_found` returns whether the keyboard opens and closes it again; no handle is open afterwards unless one was and `hid_init` fails; it sends nothing, and leaves the library initialised exactly when it was or `hid_init` succeeds |
| Device.SetColor | src/msiklm.c:269-312 | `set_color` sends exactly `ColorFrame` and returns 8 for regions 1..7, and returns -1 having sent nothing otherwise |
| Device.SetMode | src/msiklm.c:320-337 | `set_mode` sends exactly `ModeFrame` and returns 8 for modes 1..5, and returns -1 having sent nothing otherwise |
| Invocation.ParseColorOf | src/main.c:112 | whatever a slot held, `parse_color` accepts a token exactly when `ColorOf` does, with its colour |
| Invocation.OutcomeAt | src/main.c:110-112 | the i-th parse outcome is that of the i-th token |
| Invocation.AcceptedPrefix | src/main.c:110-121 | the colours accepted before the loop stops are those of the leading tokens, up to the first that does not parse |
| Invocation.ParseColorList | src/main.c:101-129 | the colour argument yields at most seven colours |
| Invocation.ColorListMeaning | src/main.c:101-129 | the list is accepted exactly when it has at most seven tokens and each parses; colour i is then token i's; a single colour fills three regions |
| Invocation.PlanOf | src/main.c:94-290 | no argument is a rejection; a send has at most seven colours and a valid mode |
| Invocation.ListOf | src/main.c:101-133 | the colour list is parsed only when there is a first argument |
| Invocation.Switch | src/main.c:141-265 | the dispatch on `argc`: too few arguments reject; every send has at most seven colours and a valid mode |
| Invocation.OneArgument | src/main.c:147-199 | `case 2` yields only sends with a valid mode |
| Invocation.TwoArguments | src/main.c:201-232 | `case 3` yields only sends with a valid mode |
| Invocation.ThreeArguments | src/main.c:234-260 | `case 4` yields only sends with a valid mode |
| Invocation.SendLog | src/main.c:271-285 | the frames sent are one colour frame for regions 1, 2, … in order, each with its dimmed colour, then exactly one mode frame |
| Invocation.ColorFrames | src/main.c:275-276 | the i-th frame is `set_color`'s frame for colour i in region i + 1 |
| Invocation.ColorFramesSnoc | src/main.c:275-276 | one more loop step appends the next region's frame |
| Invocation.ParseColorTokens | src/main.c:108-122 | the tokenising loop fills slot i with token i's colour; it ends with 0 exactly when every token was parsed, and with -1 at the first token that does not parse or at an eighth token |
| Invocation.ParseColorInto | src/main.c:112 | the slot gets the token's colour exactly when it parses; no other slot changes |
| Invocation.AcceptedPrefixOf | src/main.c:110-121 | leading tokens that parse are all in the accepted prefix, and it stops at the first that does not |
| Invocation.FillFirstThree | src/main.c:124-128 | the single colour fills slots 0..2 and `num_regions` becomes 3 |
| Invocation.LoopOutcome | src/main.c:108-128 | the loop's result and slots, plus the one-colour expansion, are exactly `ParseColorList` |
| Invocation.ParseColorArgument | src/main.c:101-129 | the colour argument ends with 0 exactly when the list is accepted, and `colors[0..num_regions)` are the list's colours |
| Invocation.Run | src/main.c:94-290 | `main` returns -1 and sends nothing for a rejection; it returns 0 and sends nothing for help, test and list; for a send it returns 0 exactly when the keyboard opens and then sends exactly `SendLog`, and it closes the device and exits the library; a rejection, `help` and `list` leave the library as it was, and `test` leaves no handle open but the library initialised when `hid_init` succeeds |
| Invocation.Dispatch | src/main.c:136-265 | after the defaults and the `switch`, `ret == 0` with a mode set happens exactly when the plan is a send, and brightness and mode are the plan's; no frame is sent; only `test` touches the library, opening no lasting handle and initialising it when `hid_init` succeeds |
| Invocation.OneArgumentCase | src/main.c:147-199 | `case 2` as code agrees with `OneArgument` and sends no frame; only `test` touches the library, opening no lasting handle and initialising it when `hid_init` succeeds |
| Invocation.TwoArgumentsCase | src/main.c:201-232 | `case 3` as code agrees with `TwoArguments`, and rejects when the colours did not parse |
| Invocation.ThreeArgumentsCase | src/main.c:234-260 | `case 4` as code agrees with `ThreeArguments`, and rejects when the colours did not parse |
| Invocation.SendFrames | src/main.c:269-286 | the send block returns 0 exactly when the keyboard opens; it then sends the colour frames in region order and then the mode frame; it always calls `hid_exit` |
| Invocation.SendColors | src/main.c:275-276 | the `for` loop sends one colour frame per region, in order |
| Plans.ColorOfWord | src/msiklm.c:23-120 | a token not starting with `[` denotes a colour exactly when it is a colour name |
| Plans.SharedWord | src/msiklm.c:63-69 | `off` is the only word that is both a colour and a brightness |
| Plans.SingleWordList | src/main.c:108-128 | a first argument without `,` is one token: a colour fills three regions, anything else rejects the list with no colours |
| Plans.ModeArgument | src/main.c:155-161 | `msiklm <mode>` sends no colour frame and the mode frame, with brightness -1 |
| Plans.AdminArgument | src/main.c:162-193 | `msiklm help`, `test` and `list` exit with 0 and send nothing |
| Plans.UnknownWord | src/main.c:195-196 | a single word that is no colour, mode or command is rejected |
| Plans.KeywordListAccepted | src/main.c:110-121 | a comma-joined list of colour names is accepted exactly when it has at most seven names |
| Plans.KeywordListColors | src/main.c:110-116 | an accepted list of names gives name i's colour to region i + 1 |
| Plans.KeywordAlone | src/main.c:124-128 | one colour name alone fills the first three regions |
| Plans.ColorsAlone | src/main.c:136-157 | `msiklm <colors>` with an accepted list sends those colours at `high` brightness in the `normal` mode |
| Plans.KeywordArgument | src/main.c:124-157 | `msiklm <name>`, as in `msiklm red`, sends the name's colour to regions 1, 2 and 3, then commits `normal` |
| Plans.ThreeRegionFrames | src/main.c:271-285 | the frames for one colour in three regions at `high` are `[1,2,64,k,r,g,b,236]` for k = 1, 2, 3, then `[1,2,65,1,0,0,0,236]` |
| Plans.KeywordTokens | src/main.c:109-116 | the tokens of a comma-joined list of names are the names |
| Plans.EmptyList | src/main.c:103-137 | a first argument of commas only is accepted with no colours, so only the `normal` mode frame is sent |
| Plans.SecondArgument | src/main.c:201-232 | with two arguments a rejected colour list is rejected; otherwise the second must be a brightness or a mode, and is rejected when it is neither; a brightness keeps mode `normal`, a mode keeps brightness `high` |
| Plans.ThirdArgument | src/main.c:234-260 | with three arguments a send needs an accepted list, a brightness and a mode, and uses all three; every other such command line is rejected |
| Plans.SwappedArguments | src/main.c:239-253 | a mode given before the brightness is rejected |
| Plans.ExtraArguments | src/main.c:262-264 | with more than three arguments an accepted list is still sent as if it stood alone, and anything else is rejected |
| Plans.SendInvariant | src/main.c:139 | when frames are sent, the mode is valid, the brightness is never `rgb`, and either the brightness is high..off with the accepted list's colours or it is -1 with no colours |

## Left out

- The `profile` field of `struct color` is not modelled. `parse_color` never assigns it and `set_color` never reads it.
- Hex notation and `parse_hex` are declared in `src/msiklm.h` but not implemented by `parse_color`, so they are not modelled.
- The preset colour command 66 appears only in a comment of `set_color` and is not modelled.
- IEEE double arithmetic is not modelled. The frames use the exact integer dimming c·(3 - b)/3. `Frames.FactorTruncation` shows that flooring the exact real product `factor * c` gives the same value, provided the factor is in the stated range. The lemma multiplies exact reals, so the rounding of the double product before the cast is assumed, not proved.
- Printing is not modelled: `show_help`, `enumerate_hid`, every diagnostic and the ANSI colour macros. `list` and `help` are plans with no effect on the keyboard.
- The HID library is a class `Hid` whose outcomes are fixed when it is made: whether `hid_init` succeeds and which devices are attached. Transport failures are not modelled; a feature report is always sent in full.
- Frame bytes are integers in 0..255 (`Domain.Byte`), not bit vectors.
- `strtol` saturation at the limits of `long` is not modelled; the value is unbounded. A number outside 0..255 is rejected either way.
- `strtok_r` is modelled on an immutable string with positions. The C code writes NUL bytes into a copy and keeps `saved_ptr`.
- Parsers.ParseColor: `parse_color` is a function from the old contents of `*result` to the return code and the new contents. The pointer write is not modelled in place; `Invocation.ParseColorInto` writes the array slot.
- C memory hazards are not modelled:
  - the copy of the first argument is one byte too short for `strcpy`;
  - `parse_color` writes to `colors[7]` for an eighth token, but that token's result is discarded;
  - `strtol(NULL, …)` is reached whenever a `strtok_r` call inside the bracket finds only separators: in the first call for `[` and `[;`, in the second for `[1;;`, in the third for `[1;2;]`.
  More than seven tokens, and a bracket with missing components, are modelled as plain rejection.
- Invocation.ParseColorInto: does not state what the slot holds when the token fails to parse. A partly parsed bracket may leave red and green written (stated by `Parsers.ParseTriple`), and no later step reads that slot.
- Invocation.ParseColorTokens: does not state the contents of the slot of the token that failed, for the same reason.
- Invocation.Run: requires no keyboard handle to be open when `main` starts, as at program start.
- The order of diagnostics relative to frames is not modelled, since there is no output.
