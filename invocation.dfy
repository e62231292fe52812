/**
 * `main` in main.c: the colour list in the first argument, the dispatch on
 * the number of arguments, and the frames sent to the keyboard.
 *
 * `PlanOf` states what an invocation does; `Run` is the program itself,
 * proved to carry out that plan on a `Hid`.
 */
module Invocation {
  import opened Wrappers
  import opened Domain
  import opened CLib
  import opened Parsers
  import opened Frames
  import opened Device

  /** Size of the `colors` array: one slot per region. */
  const MAX_COLORS := 7
  /** The separator of the colour list. */
  const LIST_DELIMS: set<char> := {','}

  /** The colour a list token denotes, when `parse_color` accepts it. */
  function ColorOf(token: string): (c: Option<Color>)
  {
    var p := ParseColor(Some(token), Black);
    if p.ret == 0 then Some(p.result) else None
  }

  /** Whatever `*result` held, `parse_color` accepts a token exactly when `ColorOf` does, with its colour. */
  lemma ParseColorOf(token: string, prior: Color)
    ensures ParseColor(Some(token), prior).ret == 0 <==> ColorOf(token).Some?
    ensures ColorOf(token).Some? ==> ParseColor(Some(token), prior).result == ColorOf(token).value
  {
    if ParseColor(Some(token), prior).ret == 0 {
      AcceptedIgnoresPrior(Some(token), prior, Black);
    }
  }

  /** What `parse_color` makes of each token. */
  function Outcomes(tokens: seq<string>): (outs: seq<Option<Color>>)
    ensures |outs| == |tokens|
  {
    if tokens == [] then [] else [ColorOf(tokens[0])] + Outcomes(tokens[1..])
  }

  /** Outcome `i` is what `parse_color` makes of token `i`. */
  lemma {:induction false} OutcomeAt(tokens: seq<string>, i: nat)
    requires i < |tokens|
    ensures Outcomes(tokens)[i] == ColorOf(tokens[i])
  {
    if i > 0 {
      OutcomeAt(tokens[1..], i - 1);
    }
  }

  lemma {:induction false} OutcomesAll(tokens: seq<string>)
    ensures forall i :: 0 <= i < |tokens| ==> Outcomes(tokens)[i] == ColorOf(tokens[i])
  {
    forall i | 0 <= i < |tokens|
      ensures Outcomes(tokens)[i] == ColorOf(tokens[i])
    {
      OutcomeAt(tokens, i);
    }
  }

  /** The colours of the leading outcomes that are colours, up to the first that is not. */
  function AcceptedPrefix(outs: seq<Option<Color>>): (cs: seq<Color>)
    ensures |cs| <= |outs|
    ensures forall i :: 0 <= i < |cs| ==> outs[i] == Some(cs[i])
    ensures |cs| < |outs| ==> outs[|cs|].None?
  {
    if outs == [] || outs[0].None? then []
    else [outs[0].value] + AcceptedPrefix(outs[1..])
  }

  function Min(a: int, b: int): int
  {
    if a <= b then a else b
  }

  /** Whether the colour loop ended with `ret == 0`, and the colours `colors[0..num_regions)`. */
  datatype ColorList = ColorList(ok: bool, colors: seq<Color>)

  /**
   * The colour loop and the special case after it: the list is accepted when
   * it has at most seven tokens and every token parses; one colour is used
   * for the first three regions. On rejection `num_regions` counts the
   * colours accepted before the loop stopped.
   */
  function ParseColorList(arg: string): (r: ColorList)
    ensures |r.colors| <= MAX_COLORS
  {
    var toks := Split(arg, LIST_DELIMS);
    var cs := AcceptedPrefix(Outcomes(toks));
    var ok := |cs| == |toks| && |toks| <= MAX_COLORS;
    if ok && |cs| == 1 then ColorList(true, [cs[0], cs[0], cs[0]])
    else ColorList(ok, cs[..Min(|cs|, MAX_COLORS)])
  }

  /**
   * What the colour list means: accepted exactly when it has at most seven
   * tokens and each parses; then colour `i` is token `i`'s, except that a
   * single colour fills three regions.
   */
  lemma ColorListMeaning(arg: string)
    ensures var r := ParseColorList(arg); var toks := Split(arg, LIST_DELIMS);
      r.ok <==> |toks| <= MAX_COLORS && forall i :: 0 <= i < |toks| ==> ColorOf(toks[i]).Some?
    ensures var r := ParseColorList(arg); var toks := Split(arg, LIST_DELIMS);
      r.ok && |toks| != 1 ==>
        |r.colors| == |toks| && forall i :: 0 <= i < |toks| ==> Some(r.colors[i]) == ColorOf(toks[i])
    ensures var r := ParseColorList(arg); var toks := Split(arg, LIST_DELIMS);
      r.ok && |toks| == 1 ==> var c := ColorOf(toks[0]).value; r.colors == [c, c, c]
  {
    var toks := Split(arg, LIST_DELIMS);
    var outs := Outcomes(toks);
    OutcomesAll(toks);
    if forall i :: 0 <= i < |toks| ==> ColorOf(toks[i]).Some? {
      AcceptedPrefixOf(outs, |outs|);
    }
  }

  datatype AdminCommand = Help | Test | List

  /** What an invocation does. */
  datatype Plan =
    | Send(colors: seq<Color>, brightness: int, mode: int)  // colour frames for regions 1.., then the mode frame
    | Admin(command: AdminCommand)                           // exit code 0, no frame sent
    | Reject                                                 // exit code -1, no frame sent

  /**
   * The plan for `argv` (program name included). Brightness and mode default
   * to `high` and `normal` once the colour list is accepted, and to -1
   * otherwise; the switch on `argc` then refines them, and the frames are sent
   * when the exit code is still 0 and a mode is set.
   */
  function PlanOf(argv: seq<string>): (p: Plan)
    ensures |argv| <= 1 ==> p == Reject
    ensures p.Send? ==> |p.colors| <= MAX_COLORS && IsModeCode(p.mode)
  {
    Switch(argv, ListOf(argv))
  }

  /** The colour list of the first argument; with no argument, a rejected empty list. */
  function ListOf(argv: seq<string>): (cl: ColorList)
    ensures |cl.colors| <= MAX_COLORS
    ensures |argv| <= 1 ==> !cl.ok
  {
    if |argv| > 1 then ParseColorList(argv[1]) else ColorList(false, [])
  }

  /** The switch on `argc`, once the colour list `cl` of the first argument is known. */
  function Switch(argv: seq<string>, cl: ColorList): (p: Plan)
    requires |cl.colors| <= MAX_COLORS
    ensures |argv| <= 1 ==> p == Reject
    ensures p.Send? ==> |p.colors| <= MAX_COLORS && IsModeCode(p.mode)
  {
    if |argv| <= 1 then Reject
    else if |argv| == 2 then OneArgument(argv[1], cl)
    else if !cl.ok then Reject
    else if |argv| == 3 then TwoArguments(cl.colors, argv[2])
    else if |argv| == 4 then ThreeArguments(cl.colors, argv[2], argv[3])
    else Send(cl.colors, High.Code(), Normal.Code())
  }

  /** `case 2`: a colour list, else a mode (brightness stays -1), else `help`, `test` or `list`. */
  function OneArgument(arg: string, cl: ColorList): (p: Plan)
    requires |cl.colors| <= MAX_COLORS
    ensures p.Send? ==> |p.colors| <= MAX_COLORS && IsModeCode(p.mode)
  {
    if cl.ok then Send(cl.colors, High.Code(), Normal.Code())
    else
      var m := ParseMode(Some(arg));
      if m.Some? then Send(cl.colors, -1, m.value.Code())
      else if arg == "help" then Admin(Help)
      else if arg == "test" then Admin(Test)
      else if arg == "list" then Admin(List)
      else Reject
  }

  /** `case 3`, after an accepted colour list: a brightness, else a mode. */
  function TwoArguments(colors: seq<Color>, arg: string): (p: Plan)
    requires |colors| <= MAX_COLORS
    ensures p.Send? ==> |p.colors| <= MAX_COLORS && IsModeCode(p.mode)
  {
    var b := ParseBrightness(Some(arg));
    var m := ParseMode(Some(arg));
    if b.Some? then Send(colors, b.value.Code(), Normal.Code())
    else if m.Some? then Send(colors, High.Code(), m.value.Code())
    else Reject
  }

  /** `case 4`, after an accepted colour list: a brightness and then a mode, both required. */
  function ThreeArguments(colors: seq<Color>, brightness: string, mode: string): (p: Plan)
    requires |colors| <= MAX_COLORS
    ensures p.Send? ==> |p.colors| <= MAX_COLORS && IsModeCode(p.mode)
  {
    var b := ParseBrightness(Some(brightness));
    var m := ParseMode(Some(mode));
    if b.Some? && m.Some? then Send(colors, b.value.Code(), m.value.Code()) else Reject
  }

  /**
   * The feature reports of a `Send`: one colour frame per colour, for regions
   * 1, 2, ... in order, then exactly one mode frame.
   */
  function SendLog(cs: seq<Color>, brightness: int, mode: int): (log: seq<Frame>)
    requires |cs| <= MAX_COLORS && IsModeCode(mode)
    ensures |log| == |cs| + 1
    ensures forall i :: 0 <= i < |cs| ==>
      DecodeColorFrame(log[i]) == Some(ColorCommand(i + 1, Dimmed(cs[i], brightness))) && DecodeModeFrame(log[i]).None?
    ensures DecodeModeFrame(log[|cs|]) == Some(mode) && DecodeColorFrame(log[|cs|]).None?
  {
    ColorFrames(cs, brightness) + [ModeFrame(mode).value]
  }

  /** The colour frames for `cs`, the first for region 1. */
  function ColorFrames(cs: seq<Color>, brightness: int): (fs: seq<Frame>)
    requires |cs| <= MAX_COLORS
    ensures |fs| == |cs|
    ensures forall i :: 0 <= i < |cs| ==> ColorFrame(cs[i], i + 1, brightness) == Ok(fs[i])
  {
    seq(|cs|, i requires 0 <= i < |cs| => ColorFrame(cs[i], i + 1, brightness).value)
  }

  /**
   * Lines 108-122 of `main`: tokenise the first argument on ',' with
   * `strtok_r` and parse each token into the next slot of `colors` while
   * parsing succeeds and a slot is free. The loop stops with -1 at the first
   * token that does not parse, or at an eighth token. `parse_color` on that
   * eighth token writes one past the end of `colors`; its result is
   * discarded, so the model does not call it there.
   */
  method ParseColorTokens(arg: string, colors: array<Color>) returns (ret: int, numRegions: nat)
    requires colors.Length == MAX_COLORS
    modifies colors
    ensures var toks := Split(arg, LIST_DELIMS);
      && (ret == 0 || ret == -1)
      && numRegions <= MAX_COLORS && numRegions <= |toks|
      && (forall i :: 0 <= i < numRegions ==> Outcomes(toks)[i] == Some(colors[i]))
      && (ret == 0 ==> numRegions == |toks|)
      && (ret == -1 ==>
            (numRegions < |toks| && Outcomes(toks)[numRegions].None?) || MAX_COLORS == numRegions < |toks|)
  {
    ghost var toks := Split(arg, LIST_DELIMS);
    ghost var outs := Outcomes(toks);
    ret := 0;
    numRegions := 0;
    var pos: nat := 0;
    var tok := StrTok(arg, pos, LIST_DELIMS);
    while tok.Some? && ret == 0
      invariant pos <= |arg| && tok == StrTok(arg, pos, LIST_DELIMS)
      invariant ret == 0 || ret == -1
      invariant numRegions <= MAX_COLORS && numRegions <= |toks|
      invariant forall i :: 0 <= i < numRegions ==> outs[i] == Some(colors[i])
      invariant ret == 0 ==> TokensFrom(arg, pos, LIST_DELIMS) == toks[numRegions..]
      invariant ret == -1 ==>
        (numRegions < |toks| && outs[numRegions].None?) || MAX_COLORS == numRegions < |toks|
      decreases |arg| - pos, ret + 1
    {
      var text := TokenText(arg, tok.value);
      ghost var rest := TokensFromNext(arg, pos, LIST_DELIMS, toks, numRegions);
      if numRegions < MAX_COLORS {
        OutcomeAt(toks, numRegions);
        ret := ParseColorInto(text, colors, numRegions);
      }
      if ret == 0 && numRegions < MAX_COLORS {
        numRegions := numRegions + 1;
        pos := tok.value.next;
        tok := StrTok(arg, pos, LIST_DELIMS);
        assert TokensFrom(arg, pos, LIST_DELIMS) == rest;
      } else {
        ret := -1;
      }
    }
    if ret == 0 {
      TokensFromEnd(arg, pos, LIST_DELIMS, toks, numRegions);
    }
  }

  /**
   * `parse_color(color_str, &colors[i])`: it succeeds exactly for the tokens
   * `ColorOf` accepts and then fills slot `i` with that colour; no other slot
   * changes.
   */
  method ParseColorInto(text: string, colors: array<Color>, i: nat) returns (ret: int)
    requires i < colors.Length
    modifies colors
    ensures forall j :: 0 <= j < colors.Length && j != i ==> colors[j] == old(colors[j])
    ensures (ret == 0 || ret == -1) && (ret == 0 <==> ColorOf(text).Some?)
    ensures ret == 0 ==> colors[i] == ColorOf(text).value
  {
    var parsed := ParseColor(Some(text), colors[i]);
    ParseColorOf(text, colors[i]);
    colors[i] := parsed.result;
    ret := parsed.ret;
  }

  /** When the first `n` outcomes are colours, they start `AcceptedPrefix`, which ends at `n` if outcome `n` is not one. */
  lemma {:induction false} AcceptedPrefixOf(outs: seq<Option<Color>>, n: nat)
    requires n <= |outs| && forall i :: 0 <= i < n ==> outs[i].Some?
    ensures n <= |AcceptedPrefix(outs)|
    ensures forall i :: 0 <= i < n ==> AcceptedPrefix(outs)[i] == outs[i].value
    ensures n == |outs| || outs[n].None? ==> |AcceptedPrefix(outs)| == n
  {
    if n > 0 {
      AcceptedPrefixOf(outs[1..], n - 1);
      assert forall i :: 1 <= i < n ==> outs[1..][i - 1] == outs[i];
    } else if outs != [] && outs[0].None? {
      assert AcceptedPrefix(outs) == [];
    }
  }

  /**
   * Lines 101-129 of `main` for an argument that is present: the colour
   * loop, then one colour is copied into the first three slots.
   */
  method ParseColorArgument(arg: string, colors: array<Color>) returns (ret: int, numRegions: nat)
    requires colors.Length == MAX_COLORS
    modifies colors
    ensures ret == 0 || ret == -1
    ensures ret == 0 <==> ParseColorList(arg).ok
    ensures numRegions <= MAX_COLORS && colors[..numRegions] == ParseColorList(arg).colors
  {
    ret, numRegions := ParseColorTokens(arg, colors);
    ghost var parsed := colors[..numRegions];
    LoopOutcome(arg, ret, parsed);
    if ret == 0 && numRegions == 1 {
      numRegions := FillFirstThree(colors);
    }
  }

  /** Lines 124-128 of `main`: the single colour is copied into the second and third slot. */
  method FillFirstThree(colors: array<Color>) returns (numRegions: nat)
    requires colors.Length == MAX_COLORS
    modifies colors
    ensures numRegions == 3 && colors[..numRegions] == [old(colors[0]), old(colors[0]), old(colors[0])]
    ensures colors[3..] == old(colors[3..])
  {
    colors[1] := colors[0];
    colors[2] := colors[0];
    numRegions := 3;
    assert colors[..numRegions] == [colors[0], colors[1], colors[2]];
  }

  /** What the colour loop leaves behind is the colour list before the single-colour expansion. */
  lemma LoopOutcome(arg: string, ret: int, parsed: seq<Color>)
    requires var toks := Split(arg, LIST_DELIMS);
      && (ret == 0 || ret == -1)
      && |parsed| <= MAX_COLORS && |parsed| <= |toks|
      && (forall i :: 0 <= i < |parsed| ==> Outcomes(toks)[i] == Some(parsed[i]))
      && (ret == 0 ==> |parsed| == |toks|)
      && (ret == -1 ==> (|parsed| < |toks| && Outcomes(toks)[|parsed|].None?) || MAX_COLORS == |parsed| < |toks|)
    ensures ret == 0 <==> ParseColorList(arg).ok
    ensures ret == 0 && |parsed| == 1 ==> ParseColorList(arg).colors == [parsed[0], parsed[0], parsed[0]]
    ensures !(ret == 0 && |parsed| == 1) ==> ParseColorList(arg).colors == parsed
  {
    var toks := Split(arg, LIST_DELIMS);
    var outs := Outcomes(toks);
    AcceptedPrefixOf(outs, |parsed|);
    var cs := AcceptedPrefix(outs);
    assert cs[..|parsed|] == parsed;
  }

  lemma ColorFramesSnoc(cs: seq<Color>, brightness: int, i: nat)
    requires i < |cs| <= MAX_COLORS
    ensures ColorFrames(cs[..i + 1], brightness) ==
      ColorFrames(cs[..i], brightness) + [ColorFrame(cs[i], i + 1, brightness).value]
  {
    var left := ColorFrames(cs[..i + 1], brightness);
    var right := ColorFrames(cs[..i], brightness) + [ColorFrame(cs[i], i + 1, brightness).value];
    assert |left| == |right|;
    forall k | 0 <= k < |left|
      ensures left[k] == right[k]
    {
      assert (cs[..i + 1])[k] == cs[k];
      if k < i {
        assert (cs[..i])[k] == cs[k];
      }
    }
  }

  /** The result of `parse_mode` or `parse_brightness` as the C enum: -1 for none. */
  function ModeValue(m: Option<Mode>): int
  {
    if m.Some? then m.value.Code() else -1
  }

  function BrightnessValue(b: Option<Brightness>): int
  {
    if b.Some? then b.value.Code() else -1
  }

  /**
   * `main`: parse the colour list, dispatch on the number of arguments, and
   * send the frames when the exit code is 0 and a mode is set. `argv`
   * includes the program name; the result is the exit code. The process
   * starts without an open handle.
   */
  method Run(argv: seq<string>, hid: Hid) returns (ret: int)
    requires !hid.isOpen
    modifies hid
    ensures PlanOf(argv).Reject? ==> ret == -1 && hid.frames == old(hid.frames)
    ensures PlanOf(argv).Admin? ==> ret == 0 && hid.frames == old(hid.frames)
    ensures var plan := PlanOf(argv);
      plan.Send? ==>
        (ret == 0 <==> hid.initSucceeds && hid.KeyboardAttached()) && (ret == 0 || ret == -1) &&
        hid.frames == old(hid.frames) + (if ret == 0 then SendLog(plan.colors, plan.brightness, plan.mode) else [])
    ensures PlanOf(argv).Send? ==> !hid.isOpen && !hid.initialised
    ensures PlanOf(argv) == Admin(Test) ==> !hid.isOpen && hid.initialised == (old(hid.initialised) || hid.initSucceeds)
    ensures PlanOf(argv).Reject? || PlanOf(argv) == Admin(Help) || PlanOf(argv) == Admin(List) ==>
      !hid.isOpen && hid.initialised == old(hid.initialised)
  {
    var colors := new Color[MAX_COLORS](_ => Black);
    var numRegions: nat := 0;
    if |argv| > 1 {
      ret, numRegions := ParseColorArgument(argv[1], colors);
    } else {
      ret := -1;
    }
    var br, md;
    ret, br, md := Dispatch(argv, ListOf(argv), ret, hid);
    if ret == 0 && md >= 0 {
      ret := SendFrames(hid, colors, numRegions, br, md);
    }
  }

  /**
   * Lines 136-265 of `main`: the defaults for brightness and mode, then the
   * switch on `argc`. `parsed` is the `ret` of the colour loop. Sending is
   * due exactly when the plan is `Send`, and then with the plan's brightness
   * and mode. Only `test` touches the device: it initialises the library,
   * opens and closes the keyboard, sends nothing and does not exit the library.
   */
  method Dispatch(argv: seq<string>, ghost cl: ColorList, parsed: int, hid: Hid) returns (ret: int, br: int, md: int)
    requires |cl.colors| <= MAX_COLORS && (parsed == 0 <==> cl.ok) && (parsed == 0 || parsed == -1)
    requires |argv| <= 1 ==> parsed == -1
    modifies hid
    ensures var plan := Switch(argv, cl);
      (ret == 0 && md >= 0 <==> plan.Send?) &&
      (plan.Send? ==> br == plan.brightness && md == plan.mode && plan.colors == cl.colors) &&
      (plan.Admin? ==> ret == 0) && (plan.Reject? ==> ret == -1)
    ensures hid.frames == old(hid.frames)
    ensures Switch(argv, cl) != Admin(Test) ==> hid.isOpen == old(hid.isOpen) && hid.initialised == old(hid.initialised)
    ensures Switch(argv, cl) == Admin(Test) ==>
      (hid.isOpen ==> old(hid.isOpen)) && hid.initialised == (old(hid.initialised) || hid.initSucceeds)
  {
    ret := parsed;
    br := if ret == 0 then High.Code() else -1;
    md := if ret == 0 then Normal.Code() else -1;
    if |argv| == 2 {
      ret, br, md := OneArgumentCase(argv[1], cl, ret, br, md, hid);
    } else if |argv| == 3 {
      ret, br, md := TwoArgumentsCase(argv[2], cl, ret, br, md);
    } else if |argv| == 4 {
      ret, br, md := ThreeArgumentsCase(argv[2], argv[3], cl, ret, br, md);
    }
  }

  /** The values of `ret`, `br` and `md` before the switch, for a colour loop that returned `parsed`. */
  predicate Defaults(parsed: int, br: int, md: int)
  {
    (parsed == 0 || parsed == -1) &&
    br == (if parsed == 0 then High.Code() else -1) && md == (if parsed == 0 then Normal.Code() else -1)
  }

  /** `case 2` of the switch on `argc`. */
  method OneArgumentCase(arg: string, ghost cl: ColorList, parsed: int, br0: int, md0: int, hid: Hid)
    returns (ret: int, br: int, md: int)
    requires |cl.colors| <= MAX_COLORS && (parsed == 0 <==> cl.ok) && Defaults(parsed, br0, md0)
    modifies hid
    ensures var plan := OneArgument(arg, cl);
      (ret == 0 && md >= 0 <==> plan.Send?) &&
      (plan.Send? ==> br == plan.brightness && md == plan.mode && plan.colors == cl.colors) &&
      (plan.Admin? ==> ret == 0) && (plan.Reject? ==> ret == -1)
    ensures hid.frames == old(hid.frames)
    ensures OneArgument(arg, cl) != Admin(Test) ==> hid.isOpen == old(hid.isOpen) && hid.initialised == old(hid.initialised)
    ensures OneArgument(arg, cl) == Admin(Test) ==>
      (hid.isOpen ==> old(hid.isOpen)) && hid.initialised == (old(hid.initialised) || hid.initSucceeds)
  {
    ret, br, md := parsed, br0, md0;
    if ret != 0 {
      md := ModeValue(ParseMode(Some(arg)));
      if md >= 0 {
        ret := 0;
      } else {
        var first := if |arg| > 0 then arg[0] else '\0';
        match first
        case 'h' =>
          if arg == "help" {
            ret := 0;
          }
        case 't' =>
          if arg == "test" {
            var _ := KeyboardFound(hid);
            ret := 0;
          }
        case 'l' =>
          if arg == "list" {
            ret := 0;
          }
        case _ =>
      }
    }
  }

  /** `case 3`: after an accepted list, a brightness, else a mode. */
  method TwoArgumentsCase(arg: string, ghost cl: ColorList, parsed: int, br0: int, md0: int)
    returns (ret: int, br: int, md: int)
    requires |cl.colors| <= MAX_COLORS && (parsed == 0 <==> cl.ok) && Defaults(parsed, br0, md0)
    ensures var plan := if cl.ok then TwoArguments(cl.colors, arg) else Reject;
      (ret == 0 && md >= 0 <==> plan.Send?) &&
      (plan.Send? ==> br == plan.brightness && md == plan.mode) && (plan.Reject? ==> ret == -1)
  {
    ret, br, md := parsed, br0, md0;
    if ret == 0 {
      var b := BrightnessValue(ParseBrightness(Some(arg)));
      if b >= 0 {
        br := b;
      } else {
        var m := ModeValue(ParseMode(Some(arg)));
        if m >= 0 {
          md := m;
        } else {
          ret := -1;
        }
      }
    } else {
      ret := -1;
    }
  }

  /** `case 4`: after an accepted list, a brightness and then a mode. */
  method ThreeArgumentsCase(brightness: string, mode: string, ghost cl: ColorList, parsed: int, br0: int, md0: int)
    returns (ret: int, br: int, md: int)
    requires |cl.colors| <= MAX_COLORS && (parsed == 0 <==> cl.ok) && Defaults(parsed, br0, md0)
    ensures var plan := if cl.ok then ThreeArguments(cl.colors, brightness, mode) else Reject;
      (ret == 0 && md >= 0 <==> plan.Send?) &&
      (plan.Send? ==> br == plan.brightness && md == plan.mode) && (plan.Reject? ==> ret == -1)
  {
    ret, br, md := parsed, br0, md0;
    if ret == 0 {
      br := BrightnessValue(ParseBrightness(Some(brightness)));
      if br >= 0 {
        md := ModeValue(ParseMode(Some(mode)));
        if md < 0 {
          ret := -1;
        }
      } else {
        ret := -1;
      }
    } else {
      ret := -1;
    }
  }

  /**
   * Lines 267-289 of `main`: open the keyboard, set the colour of regions
   * 1..num_regions (their results are ignored), set the mode, close; or
   * fail when no keyboard is found. The library is exited either way.
   */
  method SendFrames(hid: Hid, colors: array<Color>, numRegions: nat, brightness: int, mode: int) returns (ret: int)
    requires numRegions <= MAX_COLORS && numRegions <= colors.Length && IsModeCode(mode)
    requires !hid.isOpen
    modifies hid
    ensures ret == 0 <==> hid.initSucceeds && hid.KeyboardAttached()
    ensures ret == 0 || ret == -1
    ensures hid.frames == old(hid.frames) + (if ret == 0 then SendLog(colors[..numRegions], brightness, mode) else [])
    ensures !hid.isOpen && !hid.initialised
  {
    var found := OpenKeyboard(hid);
    if found {
      SendColors(hid, colors, numRegions, brightness);
      var _ := SetMode(hid, mode);
      hid.Close();
      ret := 0;
    } else {
      ret := -1;
    }
    hid.Exit();
  }

  /** Lines 275-276 of `main`: `set_color` for regions 1..num_regions, in order; the results are ignored. */
  method SendColors(hid: Hid, colors: array<Color>, numRegions: nat, brightness: int)
    requires numRegions <= MAX_COLORS && numRegions <= colors.Length
    requires hid.isOpen
    modifies hid
    ensures hid.frames == old(hid.frames) + ColorFrames(colors[..numRegions], brightness)
    ensures hid.isOpen && hid.initialised == old(hid.initialised)
  {
    ghost var cs := colors[..numRegions];
    for i := 0 to numRegions
      invariant hid.isOpen && hid.initialised == old(hid.initialised)
      invariant hid.frames == old(hid.frames) + ColorFrames(cs[..i], brightness)
    {
      ColorFramesSnoc(cs, brightness, i);
      assert colors[i] == cs[i];
      var _ := SetColor(hid, colors[i], i + 1, brightness);
    }
    assert cs[..numRegions] == cs;
  }
}
