/**
 * What `main` promises about whole command lines, stated on `PlanOf`: how a
 * colour list is read, what a single word does, how brightness and mode
 * arguments combine, and the invariant that holds when the frames are sent.
 */
module Plans {
  import opened Wrappers
  import opened Domain
  import opened CLib
  import opened Parsers
  import opened Frames
  import opened Invocation

  /** The three administrative words of `case 2`. */
  const AdminWords: map<string, AdminCommand> := map["help" := Help, "test" := Test, "list" := List]

  /** The colours of a list of colour keywords. */
  function KeywordColors(ws: seq<string>): (cs: seq<Color>)
    requires forall i :: 0 <= i < |ws| ==> ws[i] in ColorKeywords
    ensures |cs| == |ws| && forall i :: 0 <= i < |ws| ==> cs[i] == ColorKeywords[ws[i]]
  {
    seq(|ws|, i requires 0 <= i < |ws| => ColorKeywords[ws[i]])
  }

  /** A word that does not start with `[` is a colour exactly when it is a colour keyword. */
  lemma ColorOfWord(w: string)
    requires !IsBracketed(w)
    ensures ColorOf(w) == if w in ColorKeywords then Some(ColorKeywords[w]) else None
  {
    assert ParseColor(Some(w), Black) == ParseKeyword(w, Black);
  }

  /** No keyword of any table contains the list separator or starts with `[`. */
  lemma KeywordShape(w: string)
    requires w in ColorKeywords || w in BrightnessKeywords || w in ModeKeywords || w in AdminWords
    ensures IsWord(w, LIST_DELIMS) && !IsBracketed(w)
  {
  }

  /** A mode word is no colour, no brightness and no administrative word. */
  lemma ModeWordsApart(w: string)
    requires w in ModeKeywords
    ensures w !in ColorKeywords && w !in BrightnessKeywords && w !in AdminWords
  {
  }

  /** An administrative word is no colour and no mode. */
  lemma AdminWordsApart(w: string)
    requires w in AdminWords
    ensures w !in ColorKeywords && w !in ModeKeywords
  {
  }

  /** `off` is the one word that is both a colour and a brightness. */
  lemma SharedWord(w: string)
    ensures w in ColorKeywords && w in BrightnessKeywords <==> w == "off"
  {
  }

  /** A first argument without `,` is a one-token list: one colour fills three regions, anything else is rejected with no colours. */
  lemma SingleWordList(arg: string)
    requires IsWord(arg, LIST_DELIMS)
    ensures ParseColorList(arg) ==
      match ColorOf(arg)
      case Some(c) => ColorList(true, [c, c, c])
      case None => ColorList(false, [])
  {
    SplitWord(arg, LIST_DELIMS);
    ColorListMeaning(arg);
    OutcomeAt([arg], 0);
    if ColorOf(arg).None? {
      assert Outcomes([arg]) == [None];
    }
  }

  /** `msiklm <mode>`: the mode alone is set; no colour frame is sent and the brightness stays -1. */
  lemma ModeArgument(argv: seq<string>)
    requires |argv| == 2 && argv[1] in ModeKeywords
    ensures PlanOf(argv) == Send([], -1, ModeKeywords[argv[1]].Code())
  {
    ModeWordList(argv[1]);
  }

  /** A mode word is a rejected colour list with no colours. */
  lemma ModeWordList(w: string)
    requires w in ModeKeywords
    ensures ParseColorList(w) == ColorList(false, [])
  {
    KeywordShape(w);
    ModeWordsApart(w);
    ColorOfWord(w);
    SingleWordList(w);
  }

  /** `msiklm help`, `msiklm test` and `msiklm list` do nothing on the keyboard and exit with 0. */
  lemma AdminArgument(argv: seq<string>)
    requires |argv| == 2 && argv[1] in AdminWords
    ensures PlanOf(argv) == Admin(AdminWords[argv[1]])
  {
    var w := argv[1];
    KeywordShape(w);
    AdminWordsApart(w);
    ColorOfWord(w);
    SingleWordList(w);
  }

  /** A single word outside every table is rejected. */
  lemma UnknownWord(argv: seq<string>)
    requires |argv| == 2 && IsWord(argv[1], LIST_DELIMS) && !IsBracketed(argv[1])
    requires argv[1] !in ColorKeywords && argv[1] !in ModeKeywords && argv[1] !in AdminWords
    ensures PlanOf(argv) == Reject
  {
    ColorOfWord(argv[1]);
    SingleWordList(argv[1]);
  }

  /** Colour keywords are words of a list. */
  lemma {:induction false} KeywordsAreWords(ws: seq<string>)
    requires forall i :: 0 <= i < |ws| ==> ws[i] in ColorKeywords
    ensures IsWordList(ws, LIST_DELIMS)
  {
    if ws != [] {
      KeywordShape(ws[0]);
      KeywordsAreWords(ws[1..]);
    }
  }

  /** A comma-separated list of colour keywords is accepted exactly up to seven colours. */
  lemma KeywordListAccepted(ws: seq<string>)
    requires forall i :: 0 <= i < |ws| ==> ws[i] in ColorKeywords
    ensures ParseColorList(Join(ws, ',')).ok <==> |ws| <= MAX_COLORS
  {
    KeywordTokens(ws);
    ColorListMeaning(Join(ws, ','));
  }

  /** An accepted list of two or more colour keywords gives their colours to regions 1, 2, ... in order. */
  lemma KeywordListColors(ws: seq<string>)
    requires 1 < |ws| <= MAX_COLORS && forall i :: 0 <= i < |ws| ==> ws[i] in ColorKeywords
    ensures ParseColorList(Join(ws, ',')).colors == KeywordColors(ws)
  {
    KeywordTokens(ws);
    ColorListMeaning(Join(ws, ','));
    var cl := ParseColorList(Join(ws, ','));
    assert |cl.colors| == |ws|;
    forall i | 0 <= i < |ws|
      ensures cl.colors[i] == KeywordColors(ws)[i]
    {
      assert Some(cl.colors[i]) == ColorOf(ws[i]);
    }
  }

  /** One colour keyword alone fills the first three regions. */
  lemma KeywordAlone(w: string)
    requires w in ColorKeywords
    ensures var c := ColorKeywords[w]; ParseColorList(w) == ColorList(true, [c, c, c])
  {
    KeywordShape(w);
    ColorOfWord(w);
    SingleWordList(w);
  }

  /** `msiklm <colors>`: an accepted colour list alone is sent at `high` brightness in the `normal` mode. */
  lemma ColorsAlone(argv: seq<string>)
    requires |argv| == 2 && ParseColorList(argv[1]).ok
    ensures PlanOf(argv) == Send(ParseColorList(argv[1]).colors, High.Code(), Normal.Code())
  {
  }

  /**
   * `msiklm <name>`, as in `msiklm red`: the named colour goes undimmed to
   * regions 1, 2 and 3, and then the `normal` mode is committed.
   */
  lemma KeywordArgument(argv: seq<string>)
    requires |argv| == 2 && argv[1] in ColorKeywords
    ensures var c := ColorKeywords[argv[1]];
      && PlanOf(argv) == Send([c, c, c], High.Code(), Normal.Code())
      && SendLog([c, c, c], High.Code(), Normal.Code()) ==
         [[1, 2, 64, 1, c.red, c.green, c.blue, 236],
          [1, 2, 64, 2, c.red, c.green, c.blue, 236],
          [1, 2, 64, 3, c.red, c.green, c.blue, 236],
          [1, 2, 65, 1, 0, 0, 0, 236]]
  {
    var c := ColorKeywords[argv[1]];
    KeywordAlone(argv[1]);
    ColorsAlone(argv);
    ThreeRegionFrames(c);
  }

  /** The frames for one colour in the first three regions at `high`, then `normal`. */
  lemma ThreeRegionFrames(c: Color)
    ensures SendLog([c, c, c], High.Code(), Normal.Code()) ==
      [[1, 2, 64, 1, c.red, c.green, c.blue, 236],
       [1, 2, 64, 2, c.red, c.green, c.blue, 236],
       [1, 2, 64, 3, c.red, c.green, c.blue, 236],
       [1, 2, 65, 1, 0, 0, 0, 236]]
  {
    var cs := [c, c, c];
    assert Dimmed(c, High.Code()) == c;
    assert ColorFrames(cs, High.Code()) ==
      [ColorFrame(c, 1, High.Code()).value, ColorFrame(c, 2, High.Code()).value, ColorFrame(c, 3, High.Code()).value];
  }

  /** The tokens of a keyword list are the keywords, and each denotes its colour. */
  lemma KeywordTokens(ws: seq<string>)
    requires forall i :: 0 <= i < |ws| ==> ws[i] in ColorKeywords
    ensures Split(Join(ws, ','), LIST_DELIMS) == ws
    ensures forall i :: 0 <= i < |ws| ==> ColorOf(ws[i]) == Some(ColorKeywords[ws[i]])
  {
    KeywordsAreWords(ws);
    SplitJoin(ws, ',', LIST_DELIMS);
    forall i | 0 <= i < |ws|
      ensures ColorOf(ws[i]) == Some(ColorKeywords[ws[i]])
    {
      KeywordShape(ws[i]);
      ColorOfWord(ws[i]);
    }
  }

  /** A first argument of commas only (or empty) is an accepted empty list: only the mode frame is sent. */
  lemma EmptyList(argv: seq<string>)
    requires |argv| == 2 && forall k :: 0 <= k < |argv[1]| ==> argv[1][k] == ','
    ensures PlanOf(argv) == Send([], High.Code(), Normal.Code())
  {
    assert StrTok(argv[1], 0, LIST_DELIMS).None?;
    assert Split(argv[1], LIST_DELIMS) == [];
    ColorListMeaning(argv[1]);
  }

  /**
   * `msiklm <colors> <word>`: a rejected colour list is rejected; otherwise the
   * frames are sent exactly when the word is a brightness or a mode, and the
   * command line is rejected when it is neither. A brightness keeps the
   * `normal` mode, a mode keeps the `high` brightness.
   */
  lemma SecondArgument(argv: seq<string>)
    requires |argv| == 3
    ensures !ParseColorList(argv[1]).ok ==> PlanOf(argv) == Reject
    ensures !PlanOf(argv).Send? ==> PlanOf(argv) == Reject
    ensures ParseColorList(argv[1]).ok ==> var p := PlanOf(argv); var w := argv[2];
      && (p.Send? <==> w in BrightnessKeywords || w in ModeKeywords)
      && (p.Send? ==> p.colors == ParseColorList(argv[1]).colors)
      && (w in BrightnessKeywords ==> p.brightness == BrightnessKeywords[w].Code() && p.mode == Normal.Code())
      && (w in ModeKeywords ==> p.brightness == High.Code() && p.mode == ModeKeywords[w].Code())
  {
    if argv[2] in ModeKeywords {
      ModeWordsApart(argv[2]);
    }
  }

  /**
   * `msiklm <colors> <brightness> <mode>`: both words are required, in this
   * order, after an accepted list; anything else is rejected.
   */
  lemma ThirdArgument(argv: seq<string>)
    requires |argv| == 4
    ensures !PlanOf(argv).Send? ==> PlanOf(argv) == Reject
    ensures var p := PlanOf(argv);
      && (p.Send? <==> ParseColorList(argv[1]).ok && argv[2] in BrightnessKeywords && argv[3] in ModeKeywords)
      && (p.Send? ==> p == Send(ParseColorList(argv[1]).colors,
                                BrightnessKeywords[argv[2]].Code(), ModeKeywords[argv[3]].Code()))
  {
  }

  /** Giving the mode before the brightness is rejected. */
  lemma SwappedArguments(argv: seq<string>)
    requires |argv| == 4 && argv[2] in ModeKeywords
    ensures PlanOf(argv) == Reject
  {
    ModeWordsApart(argv[2]);
    ThirdArgument(argv);
  }

  /**
   * With four or more words after the program name the extra words are
   * ignored: an accepted colour list is set as if it stood alone, and
   * anything else is rejected.
   */
  lemma ExtraArguments(argv: seq<string>, extra: seq<string>)
    requires |argv| == 2 && |extra| >= 3
    ensures ParseColorList(argv[1]).ok ==> PlanOf(argv + extra) == PlanOf(argv)
    ensures !ParseColorList(argv[1]).ok ==> PlanOf(argv + extra) == Reject
  {
    assert (argv + extra)[1] == argv[1];
  }

  /**
   * The invariant `main` states before sending: the colours are those of an
   * accepted list and the brightness is high, medium, low or off, or else
   * there are no colours and the brightness is -1. The brightness is never
   * `rgb`.
   */
  lemma SendInvariant(argv: seq<string>)
    ensures var p := PlanOf(argv);
      p.Send? ==>
        && IsModeCode(p.mode) && p.brightness != Rgb.Code()
        && ((0 <= p.brightness <= 3 && ListOf(argv).ok && p.colors == ListOf(argv).colors)
            || (p.brightness == -1 && p.colors == []))
  {
    if |argv| == 2 && argv[1] in ModeKeywords {
      ModeWordList(argv[1]);
    }
    SwitchInvariant(argv, ListOf(argv));
  }

  /** The same invariant for the switch on `argc`, whatever colour list it is given. */
  lemma SwitchInvariant(argv: seq<string>, cl: ColorList)
    requires |cl.colors| <= MAX_COLORS
    requires |argv| == 2 && !cl.ok && argv[1] in ModeKeywords ==> cl.colors == []
    ensures var p := Switch(argv, cl);
      p.Send? ==>
        && IsModeCode(p.mode) && p.brightness != Rgb.Code()
        && ((0 <= p.brightness <= 3 && cl.ok && p.colors == cl.colors) || (p.brightness == -1 && p.colors == []))
  {
  }
}
