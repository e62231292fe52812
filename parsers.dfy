/**
 * The three string parsers of msiklm.c: `parse_color`, `parse_brightness` and
 * `parse_mode`. Each dispatches on the first character and then compares the
 * whole string, exactly as the C `switch` + `strcmp` does; the contracts relate
 * that dispatch to plain keyword tables.
 */
module Parsers {
  import opened Wrappers
  import opened Domain
  import opened CLib

  /** The named colours and their fixed channel values. */
  const ColorKeywords: map<string, Color> := map[
    "none" := Color(0, 0, 0),
    "off" := Color(0, 0, 0),
    "red" := Color(255, 0, 0),
    "orange" := Color(255, 100, 0),
    "yellow" := Color(255, 255, 0),
    "green" := Color(0, 255, 0),
    "sky" := Color(0, 255, 255),
    "blue" := Color(0, 0, 255),
    "purple" := Color(255, 0, 255),
    "white" := Color(255, 255, 255)
  ]

  const BrightnessKeywords: map<string, Brightness> := map[
    "high" := High, "medium" := Medium, "low" := Low, "off" := Off
  ]

  const ModeKeywords: map<string, Mode> := map[
    "normal" := Normal, "gaming" := Gaming, "breathe" := Breathe, "demo" := Demo, "wave" := Wave
  ]

  /** The integer `parse_color` returns (0 or -1) and what `*result` holds afterwards. */
  datatype ColorParse = ColorParse(ret: int, result: Color)

  /** One `case` of the switch: on an exact match all three channels are written. */
  function Named(s: string, name: string, c: Color, prior: Color): ColorParse
  {
    if s == name then ColorParse(0, c) else ColorParse(-1, prior)
  }

  /** True of strings `parse_color` hands to its bracket branch. */
  predicate IsBracketed(s: string)
  {
    |s| > 0 && s[0] == '['
  }

  /**
   * `parse_color(color_str, result)`, where `prior` is `*result` on entry and
   * `None` is a NULL `color_str`. The `switch` on the first character sends
   * `[` to the bracket notation and the letters to keyword comparisons.
   */
  function ParseColor(p: Option<string>, prior: Color): (r: ColorParse)
    ensures r.ret == 0 || r.ret == -1
    ensures p.None? ==> r == ColorParse(-1, prior)
  {
    match p
    case None => ColorParse(-1, prior)
    case Some(s) =>
      if IsBracketed(s) then ParseBracket(s[1..], prior) else ParseKeyword(s, prior)
  }

  /**
   * The keyword cases of the `switch`: exactly the keywords succeed, each
   * with its fixed channels, and a failure leaves `*result` as it was.
   */
  function ParseKeyword(s: string, prior: Color): (r: ColorParse)
    requires !IsBracketed(s)
    ensures r.ret == 0 <==> s in ColorKeywords
    ensures r.result == if s in ColorKeywords then ColorKeywords[s] else prior
    ensures r.ret == -1 ==> r.result == prior
  {
    if |s| == 0 then ColorParse(-1, prior)
    else match s[0]
      case 'b' => Named(s, "blue", Color(0, 0, 255), prior)
      case 'g' => Named(s, "green", Color(0, 255, 0), prior)
      case 'n' => Named(s, "none", Color(0, 0, 0), prior)
      case 'o' =>
        if s == "orange" then ColorParse(0, Color(255, 100, 0))
        else Named(s, "off", Color(0, 0, 0), prior)
      case 'p' => Named(s, "purple", Color(255, 0, 255), prior)
      case 'r' => Named(s, "red", Color(255, 0, 0), prior)
      case 's' => Named(s, "sky", Color(0, 255, 255), prior)
      case 'w' => Named(s, "white", Color(255, 255, 255), prior)
      case 'y' => Named(s, "yellow", Color(255, 255, 0), prior)
      case _ => ColorParse(-1, prior)
  }

  /** The test `parse_color` applies to each converted channel token. */
  predicate ChannelOk(conv: Conversion, token: string)
  {
    conv.end == |token| && 0 <= conv.value <= 255
  }

  /**
   * The `[r;g;b]` branch on the copy `buf` of the string after `[`: red and
   * green are `;`-tokens that must be followed by more text, blue is a
   * `]`-token after which nothing may follow. Each accepted channel is
   * written before the next is tried. A NULL token, on which the C code
   * would call `strtol(NULL, ...)`, is a rejection here.
   */
  function ParseBracket(buf: string, prior: Color): (r: ColorParse)
    ensures r.ret == 0 || r.ret == -1
    ensures r.result.blue != prior.blue ==> r.ret == 0
  {
    match StrTok(buf, 0, {';'})
    case None => ColorParse(-1, prior)
    case Some(t1) =>
      var tok1 := TokenText(buf, t1);
      var v1 := StrToL(tok1);
      if !(ChannelOk(v1, tok1) && t1.next < |buf|) then ColorParse(-1, prior)
      else
        var withRed := prior.(red := v1.value);
        match StrTok(buf, t1.next, {';'})
        case None => ColorParse(-1, withRed)
        case Some(t2) =>
          var tok2 := TokenText(buf, t2);
          var v2 := StrToL(tok2);
          if !(ChannelOk(v2, tok2) && t2.next < |buf|) then ColorParse(-1, withRed)
          else
            var withGreen := withRed.(green := v2.value);
            match StrTok(buf, t2.next, {']'})
            case None => ColorParse(-1, withGreen)
            case Some(t3) =>
              var tok3 := TokenText(buf, t3);
              var v3 := StrToL(tok3);
              if ChannelOk(v3, tok3) && t3.next == |buf| then ColorParse(0, withGreen.(blue := v3.value))
              else ColorParse(-1, withGreen)
  }

  /**
   * `parse_brightness`: exactly `high`, `medium`, `low` and `off`, case
   * sensitive; `rgb` is never produced.
   */
  function ParseBrightness(p: Option<string>): (r: Option<Brightness>)
    ensures r.Some? <==> p.Some? && p.value in BrightnessKeywords
    ensures r.Some? ==> r.value == BrightnessKeywords[p.value]
    ensures r != Some(Rgb)
  {
    match p
    case None => None
    case Some(s) =>
      if |s| == 0 then None
      else match s[0]
        case 'h' => if s == "high" then Some(High) else None
        case 'm' => if s == "medium" then Some(Medium) else None
        case 'l' => if s == "low" then Some(Low) else None
        case 'o' => if s == "off" then Some(Off) else None
        case _ => None
  }

  /** `parse_mode`: exactly `normal`, `gaming`, `breathe`, `demo` and `wave`. */
  function ParseMode(p: Option<string>): (r: Option<Mode>)
    ensures r.Some? <==> p.Some? && p.value in ModeKeywords
    ensures r.Some? ==> r.value == ModeKeywords[p.value]
  {
    match p
    case None => None
    case Some(s) =>
      if |s| == 0 then None
      else match s[0]
        case 'n' => if s == "normal" then Some(Normal) else None
        case 'g' => if s == "gaming" then Some(Gaming) else None
        case 'b' => if s == "breathe" then Some(Breathe) else None
        case 'd' => if s == "demo" then Some(Demo) else None
        case 'w' => if s == "wave" then Some(Wave) else None
        case _ => None
  }

  // ---------------------------------------------------------------------------
  // Properties of the bracket notation

  /** `[x;y;z` followed by `close`, each component written in decimal. */
  function Bracket3(x: int, y: int, z: int, close: string): string
  {
    "[" + IntDecimal(x) + ";" + IntDecimal(y) + ";" + IntDecimal(z) + close
  }

  predicate InByteRange(n: int)
  {
    0 <= n <= 255
  }

  /**
   * What `parse_color` does with three decimal components: the channels are
   * taken in order until one is out of range, each accepted channel is
   * written, and the whole succeeds only when all three are in range and at
   * most the closing `]` follows the last one (a missing `]` is accepted,
   * anything after it is not).
   */
  lemma ParseTriple(x: int, y: int, z: int, close: string, prior: Color)
    requires close == "" || close[0] == ']'
    ensures ParseColor(Some(Bracket3(x, y, z, close)), prior) ==
      if !InByteRange(x) then ColorParse(-1, prior)
      else if !InByteRange(y) then ColorParse(-1, prior.(red := x))
      else if !InByteRange(z) || |close| > 1 then ColorParse(-1, prior.(red := x, green := y))
      else ColorParse(0, Color(x, y, z))
  {
    var s := Bracket3(x, y, z, close);
    var t1, t2, t3 := TripleTokens(x, y, z, close);
    StrToLDecimal(x, []);
    StrToLDecimal(y, []);
    StrToLDecimal(z, []);
    assert IntDecimal(x) + [] == IntDecimal(x);
    assert IntDecimal(y) + [] == IntDecimal(y);
    assert IntDecimal(z) + [] == IntDecimal(z);
    BracketValues(s[1..], prior, t1, t2, t3, x, y, z);
    assert IsBracketed(s);
  }

  /**
   * `ParseBracket` once its three tokens are found, the first two followed by
   * more text, and each converts entirely to a number.
   */
  lemma BracketValues(buf: string, prior: Color, t1: Token, t2: Token, t3: Token, x: int, y: int, z: int)
    requires StrTok(buf, 0, {';'}) == Some(t1) && t1.next < |buf|
    requires StrTok(buf, t1.next, {';'}) == Some(t2) && t2.next < |buf|
    requires StrTok(buf, t2.next, {']'}) == Some(t3)
    requires StrToL(TokenText(buf, t1)) == Conversion(x, |TokenText(buf, t1)|)
    requires StrToL(TokenText(buf, t2)) == Conversion(y, |TokenText(buf, t2)|)
    requires StrToL(TokenText(buf, t3)) == Conversion(z, |TokenText(buf, t3)|)
    ensures ParseBracket(buf, prior) ==
      if !InByteRange(x) then ColorParse(-1, prior)
      else if !InByteRange(y) then ColorParse(-1, prior.(red := x))
      else if !InByteRange(z) || t3.next != |buf| then ColorParse(-1, prior.(red := x, green := y))
      else ColorParse(0, Color(x, y, z))
  {
    ParseBracketTokens(buf, prior, t1, t2, t3);
  }

  /** The three tokens `parse_color` reads from `[x;y;z` followed by `close`. */
  lemma TripleTokens(x: int, y: int, z: int, close: string) returns (t1: Token, t2: Token, t3: Token)
    requires close == "" || close[0] == ']'
    ensures var buf := Bracket3(x, y, z, close)[1..];
      && StrTok(buf, 0, {';'}) == Some(t1) && TokenText(buf, t1) == IntDecimal(x) && t1.next < |buf|
      && StrTok(buf, t1.next, {';'}) == Some(t2) && TokenText(buf, t2) == IntDecimal(y) && t2.next < |buf|
      && StrTok(buf, t2.next, {']'}) == Some(t3) && TokenText(buf, t3) == IntDecimal(z)
      && (t3.next == |buf| <==> |close| <= 1)
  {
    var dx, dy, dz := IntDecimal(x), IntDecimal(y), IntDecimal(z);
    var s := Bracket3(x, y, z, close);
    ComponentText(x);
    ComponentText(y);
    ComponentText(z);
    Regroup(s, dx, dy, dz, close);
    t1, t2, t3 := ComponentTokens(s[1..], dx, dy, dz, close);
  }

  /** The tokens of `dx;dy;dz` followed by `close`, where `dz` may hold `;` but not `]`. */
  lemma ComponentTokens(buf: string, dx: string, dy: string, dz: string, close: string)
    returns (t1: Token, t2: Token, t3: Token)
    requires IsComponentText(dx) && IsComponentText(dy)
    requires |dz| > 0 && forall k :: 0 <= k < |dz| ==> dz[k] != ']'
    requires close == "" || close[0] == ']'
    requires buf == dx + ";" + (dy + ";" + dz + close)
    requires buf == (dx + ";") + dy + ";" + (dz + close)
    requires buf == (dx + ";" + dy + ";") + dz + close
    ensures StrTok(buf, 0, {';'}) == Some(t1) && TokenText(buf, t1) == dx && t1.next < |buf|
    ensures StrTok(buf, t1.next, {';'}) == Some(t2) && TokenText(buf, t2) == dy && t2.next < |buf|
    ensures StrTok(buf, t2.next, {']'}) == Some(t3) && TokenText(buf, t3) == dz
    ensures t3.next == |buf| <==> |close| <= 1
  {
    t1 := RedToken(buf, dx, dy + ";" + dz + close);
    t2 := GreenToken(buf, dx + ";", dy, dz + close);
    var pre3 := dx + ";" + dy + ";";
    assert |pre3| == t2.next;
    t3 := BlueToken(buf, pre3, dz, close);
  }

  /** `ParseBracket` once its three tokens are known. */
  lemma ParseBracketTokens(buf: string, prior: Color, t1: Token, t2: Token, t3: Token)
    requires StrTok(buf, 0, {';'}) == Some(t1)
    requires StrTok(buf, t1.next, {';'}) == Some(t2)
    requires StrTok(buf, t2.next, {']'}) == Some(t3)
    ensures var c1, c2, c3 := TokenText(buf, t1), TokenText(buf, t2), TokenText(buf, t3);
      var v1, v2, v3 := StrToL(c1), StrToL(c2), StrToL(c3);
      ParseBracket(buf, prior) ==
        if !(ChannelOk(v1, c1) && t1.next < |buf|) then ColorParse(-1, prior)
        else if !(ChannelOk(v2, c2) && t2.next < |buf|) then ColorParse(-1, prior.(red := v1.value))
        else if !(ChannelOk(v3, c3) && t3.next == |buf|) then ColorParse(-1, prior.(red := v1.value, green := v2.value))
        else ColorParse(0, Color(v1.value, v2.value, v3.value))
  {
  }

  /** Text that can stand for one component: non-empty, without `;` or `]`. */
  predicate IsComponentText(w: string)
  {
    |w| > 0 && forall k :: 0 <= k < |w| ==> w[k] != ';' && w[k] != ']'
  }

  lemma ComponentText(n: int)
    ensures IsComponentText(IntDecimal(n))
  {
    IntDecimalChars(n);
  }

  lemma Regroup(buf: string, dx: string, dy: string, dz: string, close: string)
    requires buf == "[" + dx + ";" + dy + ";" + dz + close
    ensures buf[1..] == dx + ";" + (dy + ";" + dz + close)
    ensures buf[1..] == (dx + ";") + dy + ";" + (dz + close)
    ensures buf[1..] == (dx + ";" + dy + ";") + dz + close
  {
  }

  /** The first `;`-token of `dx;rest` is `dx`. */
  lemma RedToken(buf: string, dx: string, rest: string) returns (t: Token)
    requires IsComponentText(dx) && buf == dx + ";" + rest
    ensures StrTok(buf, 0, {';'}) == Some(t) && TokenText(buf, t) == dx
    ensures t.next == |dx| + 1
  {
    assert buf == [] + dx + (";" + rest);
    StrTokIn([], dx, ";" + rest, {';'});
    t := Token(0, |dx|, |dx| + 1);
  }

  /** After `pre`, the next `;`-token of `pre dy;rest` is `dy`. */
  lemma GreenToken(buf: string, pre: string, dy: string, rest: string) returns (t: Token)
    requires IsComponentText(dy) && buf == pre + dy + ";" + rest
    ensures StrTok(buf, |pre|, {';'}) == Some(t) && TokenText(buf, t) == dy
    ensures t.next == |pre| + |dy| + 1
  {
    assert buf == pre + dy + (";" + rest);
    StrTokIn(pre, dy, ";" + rest, {';'});
    t := Token(|pre|, |pre| + |dy|, |pre| + |dy| + 1);
  }

  /** After `pre`, the `]`-token of `pre dz close` is `dz`. */
  lemma BlueToken(buf: string, pre: string, dz: string, close: string) returns (t: Token)
    requires |dz| > 0 && (forall k :: 0 <= k < |dz| ==> dz[k] != ']') && buf == pre + dz + close
    requires close == "" || close[0] == ']'
    ensures StrTok(buf, |pre|, {']'}) == Some(t) && TokenText(buf, t) == dz
    ensures t.next == |buf| <==> |close| <= 1
  {
    StrTokIn(pre, dz, close, {']'});
    t := Token(|pre|, |pre| + |dz|, if close == "" then |buf| else |pre| + |dz| + 1);
  }

  /** Round trip: every byte triple written as `[r;g;b]` parses back to itself. */
  lemma BracketRoundTrip(r: Byte, g: Byte, b: Byte, prior: Color)
    ensures ParseColor(Some(Bracket3(r, g, b, "]")), prior) == ColorParse(0, Color(r, g, b))
  {
    ParseTriple(r, g, b, "]", prior);
  }

  /**
   * A triple written as `[x;y;z]` is accepted exactly when every component is
   * in 0..255, e.g. `[256;0;0]` and `[-1;0;0]` are rejected.
   */
  lemma BracketRange(x: int, y: int, z: int, prior: Color)
    ensures ParseColor(Some(Bracket3(x, y, z, "]")), prior).ret == 0 <==>
      InByteRange(x) && InByteRange(y) && InByteRange(z)
  {
    ParseTriple(x, y, z, "]", prior);
  }

  /** Any character after a `]` that follows the third number makes the notation fail. */
  lemma TrailingTextRejected(x: int, y: int, z: int, tail: string, prior: Color)
    requires |tail| > 0
    ensures ParseColor(Some(Bracket3(x, y, z, "]" + tail)), prior).ret == -1
  {
    ParseTriple(x, y, z, "]" + tail, prior);
  }

  /** Without the closing `]` the triple is still accepted. */
  lemma MissingCloseAccepted(r: Byte, g: Byte, b: Byte, prior: Color)
    ensures ParseColor(Some(Bracket3(r, g, b, "")), prior) == ColorParse(0, Color(r, g, b))
  {
    ParseTriple(r, g, b, "", prior);
  }

  /**
   * The third `strtok_r` call splits on `]`, so `]` in front of the blue
   * component is skipped: `[1;2;]3` and `[1;2;]]3]` are accepted as (1, 2, 3).
   */
  lemma EarlyCloseAccepted(r: Byte, g: Byte, b: Byte, lead: string, close: string, prior: Color)
    requires |lead| > 0 && forall k :: 0 <= k < |lead| ==> lead[k] == ']'
    requires close == "" || close == "]"
    ensures ParseColor(Some("[" + IntDecimal(r) + ";" + IntDecimal(g) + ";" + lead + IntDecimal(b) + close), prior) ==
      ColorParse(0, Color(r, g, b))
  {
    var dx, dy, dz := IntDecimal(r), IntDecimal(g), IntDecimal(b);
    var s := "[" + dx + ";" + dy + ";" + lead + dz + close;
    ComponentText(r);
    ComponentText(g);
    ComponentText(b);
    RegroupEarly(s, dx, dy, lead, dz, close);
    var t1, t2, t3 := EarlyCloseTokens(s[1..], dx, dy, lead, dz, close);
    StrToLDecimal(r, []);
    StrToLDecimal(g, []);
    StrToLDecimal(b, []);
    assert dx + [] == dx && dy + [] == dy && dz + [] == dz;
    BracketValues(s[1..], prior, t1, t2, t3, r, g, b);
    assert IsBracketed(s);
  }

  lemma RegroupEarly(s: string, dx: string, dy: string, lead: string, dz: string, close: string)
    requires s == "[" + dx + ";" + dy + ";" + lead + dz + close
    ensures s[1..] == dx + ";" + (dy + ";" + lead + dz + close)
    ensures s[1..] == (dx + ";") + dy + ";" + (lead + dz + close)
    ensures s[1..] == (dx + ";" + dy + ";") + (lead + (dz + close))
  {
  }

  /** The tokens of `dx;dy;` followed by a run of `]`, then `dz` and at most one `]`. */
  lemma EarlyCloseTokens(buf: string, dx: string, dy: string, lead: string, dz: string, close: string)
    returns (t1: Token, t2: Token, t3: Token)
    requires IsComponentText(dx) && IsComponentText(dy) && IsComponentText(dz)
    requires |lead| > 0 && forall k :: 0 <= k < |lead| ==> lead[k] == ']'
    requires close == "" || close == "]"
    requires buf == dx + ";" + (dy + ";" + lead + dz + close)
    requires buf == (dx + ";") + dy + ";" + (lead + dz + close)
    requires buf == (dx + ";" + dy + ";") + (lead + (dz + close))
    ensures StrTok(buf, 0, {';'}) == Some(t1) && TokenText(buf, t1) == dx && t1.next < |buf|
    ensures StrTok(buf, t1.next, {';'}) == Some(t2) && TokenText(buf, t2) == dy && t2.next < |buf|
    ensures StrTok(buf, t2.next, {']'}) == Some(t3) && TokenText(buf, t3) == dz && t3.next == |buf|
  {
    t1 := RedToken(buf, dx, dy + ";" + lead + dz + close);
    t2 := GreenToken(buf, dx + ";", dy, lead + dz + close);
    var pre3 := dx + ";" + dy + ";";
    assert |pre3| == t2.next;
    assert buf[|pre3|..] == lead + (dz + close);
    t3 := SkippedCloseToken(buf, |pre3|, lead, dz, close);
  }

  /** From index `p`, a run of `]` is skipped and the `]`-token is `dz`, which ends the string or is closed by its `]`. */
  lemma SkippedCloseToken(buf: string, p: nat, lead: string, dz: string, close: string) returns (t: Token)
    requires IsComponentText(dz) && (close == "" || close == "]")
    requires |lead| > 0 && forall k :: 0 <= k < |lead| ==> lead[k] == ']'
    requires p <= |buf| && buf[p..] == lead + (dz + close)
    ensures StrTok(buf, p, {']'}) == Some(t) && TokenText(buf, t) == dz && t.next == |buf|
  {
    var q := p + |lead|;
    SkipCloses(buf, p, lead, dz + close);
    t := ClosedTokenAt(buf, q, dz, close);
    assert StrTok(buf, p, {']'}) == StrTok(buf, q, {']'});
  }

  /** A run `lead` of `]` at `p` is skipped by the `]`-tokeniser, which resumes on `rest`. */
  lemma SkipCloses(buf: string, p: nat, lead: string, rest: string)
    requires forall k :: 0 <= k < |lead| ==> lead[k] == ']'
    requires p <= |buf| && buf[p..] == lead + rest
    ensures p + |lead| <= |buf| && buf[p + |lead|..] == rest
    ensures StrTok(buf, p, {']'}) == StrTok(buf, p + |lead|, {']'})
  {
    SliceAt(buf, p, lead, rest);
    forall k | p <= k < p + |lead|
      ensures buf[k] in {']'}
    {
      assert buf[p + (k - p)] == lead[k - p];
    }
    StrTokSkipRun(buf, p, |lead|, {']'});
  }

  /** From index `q`, where `dz` and at most one `]` end the string, the `]`-token is `dz`. */
  lemma ClosedTokenAt(buf: string, q: nat, dz: string, close: string) returns (t: Token)
    requires IsComponentText(dz) && (close == "" || close == "]")
    requires q <= |buf| && buf[q..] == dz + close
    ensures StrTok(buf, q, {']'}) == Some(t) && TokenText(buf, t) == dz && t.next == |buf|
  {
    SliceAt(buf, q, dz, close);
    assert |buf| == q + |dz| + |close|;
    StrTokWord(buf, q, dz, {']'});
    t := Token(q, q + |dz|, |buf|);
  }

  /**
   * An accepted bracket notation contains two `;` after the `[`: with fewer
   * than three components, as in `[10;10]`, it fails.
   */
  lemma AcceptedHasTwoSeparators(s: string, prior: Color)
    requires IsBracketed(s)
    requires ParseColor(Some(s), prior).ret == 0
    ensures exists i, j :: 1 <= i < j < |s| && s[i] == ';' && s[j] == ';'
  {
    var buf := s[1..];
    assert ParseBracket(buf, prior).ret == 0;
    var t1 := StrTok(buf, 0, {';'}).value;
    var t2 := StrTok(buf, t1.next, {';'}).value;
    assert buf[t1.end] == ';' && s[t1.end + 1] == ';';
    assert buf[t2.end] == ';' && s[t2.end + 1] == ';';
  }

  /** A fourth component, as in `[1;2;3;4]`, makes the notation fail. */
  lemma FourthComponentRejected(x: int, y: int, z: int, w: int, prior: Color)
    ensures ParseColor(Some(Bracket3(x, y, z, ";" + IntDecimal(w) + "]")), prior).ret == -1
  {
    var s := Bracket3(x, y, z, ";" + IntDecimal(w) + "]");
    var t1, t2, t3 := QuadrupleTokens(x, y, z, w);
    ParseBracketTokens(s[1..], prior, t1, t2, t3);
    StrToLDecimal(z, ";" + IntDecimal(w));
  }

  /** With four components the `]`-token that should hold blue is `z;w`. */
  lemma QuadrupleTokens(x: int, y: int, z: int, w: int) returns (t1: Token, t2: Token, t3: Token)
    ensures var buf := Bracket3(x, y, z, ";" + IntDecimal(w) + "]")[1..];
      && StrTok(buf, 0, {';'}) == Some(t1)
      && StrTok(buf, t1.next, {';'}) == Some(t2)
      && StrTok(buf, t2.next, {']'}) == Some(t3)
      && TokenText(buf, t3) == IntDecimal(z) + (";" + IntDecimal(w))
  {
    var dx, dy, dz, dw := IntDecimal(x), IntDecimal(y), IntDecimal(z), IntDecimal(w);
    var s := Bracket3(x, y, z, ";" + dw + "]");
    var d3 := dz + (";" + dw);
    ComponentText(x);
    ComponentText(y);
    ComponentText(z);
    ComponentText(w);
    assert s == "[" + dx + ";" + dy + ";" + d3 + "]";
    Regroup(s, dx, dy, d3, "]");
    t1, t2, t3 := ComponentTokens(s[1..], dx, dy, d3, "]");
  }

  /**
   * The notation is lenient where `strtok_r` and `strtol` are: a leading `;`,
   * a doubled `;`, a blank before a number and an explicit `+` are all
   * accepted, as in `[; 1;;+2;3]`.
   */
  lemma LenientNotation(r: Byte, g: Byte, b: Byte, prior: Color)
    ensures ParseColor(Some(LenientBracket(r, g, b)), prior) == ColorParse(0, Color(r, g, b))
  {
    var s := LenientBracket(r, g, b);
    var t1, t2, t3 := LenientTokens(r, g, b);
    StrToLLenient(" ", r);
    StrToLLenient("+", g);
    StrToLDecimal(b, []);
    assert Decimal(b) + [] == Decimal(b);
    BracketValues(s[1..], prior, t1, t2, t3, r, g, b);
    assert IsBracketed(s);
  }


  /** `[; r;;+g;b]` */
  function LenientBracket(r: nat, g: nat, b: nat): string
  {
    "[;" + (" " + Decimal(r)) + ";;" + ("+" + Decimal(g)) + ";" + Decimal(b) + "]"
  }

  lemma LenientTokens(r: nat, g: nat, b: nat) returns (t1: Token, t2: Token, t3: Token)
    ensures var buf := LenientBracket(r, g, b)[1..];
      && StrTok(buf, 0, {';'}) == Some(t1) && TokenText(buf, t1) == " " + Decimal(r) && t1.next < |buf|
      && StrTok(buf, t1.next, {';'}) == Some(t2) && TokenText(buf, t2) == "+" + Decimal(g) && t2.next < |buf|
      && StrTok(buf, t2.next, {']'}) == Some(t3) && TokenText(buf, t3) == Decimal(b) && t3.next == |buf|
  {
    var w1, w2, w3 := " " + Decimal(r), "+" + Decimal(g), Decimal(b);
    ComponentText(r);
    ComponentText(g);
    ComponentText(b);
    assert IsComponentText(w1) && IsComponentText(w2) && IsComponentText(w3);
    var buf := LenientBracket(r, g, b)[1..];
    assert buf == ";" + w1 + ";;" + w2 + ";" + w3 + "]";
    t1, t2, t3 := SpacedTokens(buf, w1, w2, w3);
  }

  /** The three tokens of `;w1;;w2;w3]`. */
  lemma SpacedTokens(buf: string, w1: string, w2: string, w3: string) returns (t1: Token, t2: Token, t3: Token)
    requires IsComponentText(w1) && IsComponentText(w2) && IsComponentText(w3)
    requires buf == ";" + w1 + ";;" + w2 + ";" + w3 + "]"
    ensures StrTok(buf, 0, {';'}) == Some(t1) && TokenText(buf, t1) == w1 && t1.next < |buf|
    ensures StrTok(buf, t1.next, {';'}) == Some(t2) && TokenText(buf, t2) == w2 && t2.next < |buf|
    ensures StrTok(buf, t2.next, {']'}) == Some(t3) && TokenText(buf, t3) == w3 && t3.next == |buf|
  {
    assert buf == ";" + w1 + ";" + (";" + w2 + ";" + w3 + "]");
    t1 := SkippedToken(buf, ";", w1, ";" + w2 + ";" + w3 + "]");
    var pre2 := ";" + w1 + ";;";
    assert buf == pre2 + w2 + ";" + (w3 + "]");
    t2 := SkippedToken(buf, pre2, w2, w3 + "]");
    var pre3 := pre2 + w2 + ";";
    assert |pre3| == t2.next && |pre2| - 1 == t1.next;
    assert buf == pre3 + w3 + "]";
    t3 := BlueToken(buf, pre3, w3, "]");
  }

  /** After `pre`, which ends in `;`, the next `;`-token of `pre dy;rest` is `dy`, found from just before that `;`. */
  lemma SkippedToken(buf: string, pre: string, dy: string, rest: string) returns (t: Token)
    requires |pre| > 0 && pre[|pre| - 1] == ';'
    requires IsComponentText(dy) && buf == pre + dy + ";" + rest
    ensures StrTok(buf, |pre| - 1, {';'}) == Some(t) && TokenText(buf, t) == dy
    ensures t.next == |pre| + |dy| + 1
  {
    assert buf[|pre| - 1] == ';';
    StrTokSkip(buf, |pre| - 1, {';'});
    t := GreenToken(buf, pre, dy, rest);
  }

  /** On success every channel is overwritten, so what `*result` held before does not matter. */
  lemma AcceptedIgnoresPrior(p: Option<string>, prior: Color, other: Color)
    requires ParseColor(p, prior).ret == 0
    ensures ParseColor(p, other) == ParseColor(p, prior)
  {
  }
}
