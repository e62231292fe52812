/**
 * Models of the C library routines the parsers rely on: `strtok_r` (tokenising
 * with a save pointer), `strtol` in base 10, and `printf`-style decimal
 * rendering. A C string is a `seq<char>` whose end is the end of the sequence;
 * the buffer position kept in the save pointer is an index.
 */
module CLib {
  import opened Wrappers

  /** First index at or after `i` whose character is not a delimiter (`strspn`). */
  function SkipDelims(s: string, i: nat, delims: set<char>): (j: nat)
    requires i <= |s|
    ensures i <= j <= |s|
    ensures forall k :: i <= k < j ==> s[k] in delims
    ensures j < |s| ==> s[j] !in delims
    decreases |s| - i
  {
    if i == |s| || s[i] !in delims then i else SkipDelims(s, i + 1, delims)
  }

  /** First index at or after `i` whose character is a delimiter, or `|s|` (`strcspn`). */
  function FindDelim(s: string, i: nat, delims: set<char>): (j: nat)
    requires i <= |s|
    ensures i <= j <= |s|
    ensures forall k :: i <= k < j ==> s[k] !in delims
    ensures j < |s| ==> s[j] in delims
    decreases |s| - i
  {
    if i == |s| || s[i] in delims then i else FindDelim(s, i + 1, delims)
  }

  /** A token `s[start..end]` and the index the save pointer holds afterwards. */
  datatype Token = Token(start: nat, end: nat, next: nat)

  /**
   * `strtok_r(str, delims, &save)` resumed at index `pos`: leading delimiters
   * are skipped; the token runs to the next delimiter, which is overwritten by
   * the terminator so the save pointer moves past it, or to the end of the
   * string, where the save pointer stays. `None` is the NULL result.
   */
  function StrTok(s: string, pos: nat, delims: set<char>): (r: Option<Token>)
    requires pos <= |s|
    ensures r.None? <==> forall k :: pos <= k < |s| ==> s[k] in delims
    ensures r.Some? ==> pos <= r.value.start < r.value.end <= |s|
    ensures r.Some? ==> forall k :: pos <= k < r.value.start ==> s[k] in delims
    ensures r.Some? ==> forall k :: r.value.start <= k < r.value.end ==> s[k] !in delims
    ensures r.Some? && r.value.end < |s| ==> s[r.value.end] in delims && r.value.next == r.value.end + 1
    ensures r.Some? && r.value.end == |s| ==> r.value.next == |s|
  {
    var start := SkipDelims(s, pos, delims);
    if start == |s| then None
    else
      var end := FindDelim(s, start, delims);
      Some(Token(start, end, if end == |s| then end else end + 1))
  }

  /** The text of a token returned by `StrTok`. */
  function TokenText(s: string, t: Token): string
    requires t.start <= t.end <= |s|
  {
    s[t.start..t.end]
  }

  /** All tokens that successive `strtok_r` calls return from index `pos` on. */
  function TokensFrom(s: string, pos: nat, delims: set<char>): (toks: seq<string>)
    requires pos <= |s|
    decreases |s| - pos
  {
    match StrTok(s, pos, delims)
    case None => []
    case Some(t) => [TokenText(s, t)] + TokensFrom(s, t.next, delims)
  }

  /** Every token is non-empty and free of delimiters. */
  lemma {:induction false} TokensAreWords(s: string, pos: nat, delims: set<char>)
    requires pos <= |s|
    ensures forall i :: 0 <= i < |TokensFrom(s, pos, delims)| ==> IsWord(TokensFrom(s, pos, delims)[i], delims)
    decreases |s| - pos
  {
    var r := StrTok(s, pos, delims);
    if r.Some? {
      var t := r.value;
      TokensAreWords(s, t.next, delims);
      var toks := TokensFrom(s, pos, delims);
      assert toks == [TokenText(s, t)] + TokensFrom(s, t.next, delims);
      assert forall k :: 0 <= k < |TokenText(s, t)| ==> TokenText(s, t)[k] == s[t.start + k];
      assert IsWord(toks[0], delims);
      assert forall i :: 1 <= i < |toks| ==> toks[i] == TokensFrom(s, t.next, delims)[i - 1];
    }
  }

  /** One more `strtok_r` call: the token it returns is the next of the remaining tokens. */
  lemma TokensFromNext(s: string, pos: nat, delims: set<char>, toks: seq<string>, n: nat) returns (rest: seq<string>)
    requires pos <= |s| && n <= |toks| && TokensFrom(s, pos, delims) == toks[n..]
    requires StrTok(s, pos, delims).Some?
    ensures var t := StrTok(s, pos, delims).value;
      n < |toks| && TokenText(s, t) == toks[n] && TokensFrom(s, t.next, delims) == rest && rest == toks[n + 1..]
  {
    rest := toks[n + 1..];
    var t := StrTok(s, pos, delims).value;
    assert TokensFrom(s, pos, delims) == [TokenText(s, t)] + TokensFrom(s, t.next, delims);
    assert toks[n..] == [toks[n]] + toks[n + 1..];
  }

  /** When `strtok_r` returns NULL no tokens remain. */
  lemma TokensFromEnd(s: string, pos: nat, delims: set<char>, toks: seq<string>, n: nat)
    requires pos <= |s| && n <= |toks| && TokensFrom(s, pos, delims) == toks[n..]
    requires StrTok(s, pos, delims).None?
    ensures n == |toks|
  {
  }

  /** The tokens of a whole string. */
  function Split(s: string, delims: set<char>): seq<string>
  {
    TokensFrom(s, 0, delims)
  }

  /** `strtok_r` finds the token that starts at `pos` and ends at the delimiter (or end) at `pos + n`. */
  lemma StrTokAt(s: string, pos: nat, n: nat, delims: set<char>)
    requires pos + n <= |s| && 0 < n
    requires forall k :: pos <= k < pos + n ==> s[k] !in delims
    requires pos + n == |s| || s[pos + n] in delims
    ensures StrTok(s, pos, delims) == Some(Token(pos, pos + n, if pos + n == |s| then pos + n else pos + n + 1))
  {
    assert SkipDelims(s, pos, delims) == pos;
    FindDelimAt(s, pos, pos + n, delims);
  }

  lemma {:induction false} FindDelimAt(s: string, i: nat, j: nat, delims: set<char>)
    requires i <= j <= |s|
    requires forall k :: i <= k < j ==> s[k] !in delims
    requires j == |s| || s[j] in delims
    ensures FindDelim(s, i, delims) == j
    decreases j - i
  {
    if i < j {
      FindDelimAt(s, i + 1, j, delims);
    }
  }

  /** A non-empty string free of delimiters is a single token. */
  lemma SplitWord(s: string, delims: set<char>)
    requires |s| > 0
    requires forall k :: 0 <= k < |s| ==> s[k] !in delims
    ensures Split(s, delims) == [s]
  {
    StrTokAt(s, 0, |s|, delims);
    assert TokenText(s, Token(0, |s|, |s|)) == s;
    assert StrTok(s, |s|, delims).None?;
    assert TokensFrom(s, |s|, delims) == [];
  }

  /** `strtok_r` resumed at `pos` returns the word `w` written there, ended by a delimiter or the end. */
  lemma StrTokWord(s: string, pos: nat, w: string, delims: set<char>)
    requires 0 < |w| && pos + |w| <= |s| && s[pos..pos + |w|] == w
    requires forall k :: 0 <= k < |w| ==> w[k] !in delims
    requires pos + |w| == |s| || s[pos + |w|] in delims
    ensures StrTok(s, pos, delims) == Some(Token(pos, pos + |w|, if pos + |w| == |s| then pos + |w| else pos + |w| + 1))
    ensures TokenText(s, Token(pos, pos + |w|, 0)) == w
  {
    assert forall k :: pos <= k < pos + |w| ==> s[k] == w[k - pos];
    StrTokAt(s, pos, |w|, delims);
  }

  /** `strtok_r` resumed right after `pre` returns the word `w` that follows it. */
  lemma StrTokIn(pre: string, w: string, rest: string, delims: set<char>)
    requires 0 < |w| && forall k :: 0 <= k < |w| ==> w[k] !in delims
    requires rest == [] || rest[0] in delims
    ensures StrTok(pre + w + rest, |pre|, delims) ==
      Some(Token(|pre|, |pre| + |w|, if rest == [] then |pre| + |w| else |pre| + |w| + 1))
    ensures TokenText(pre + w + rest, Token(|pre|, |pre| + |w|, 0)) == w
  {
    var s := pre + w + rest;
    assert s[|pre|..|pre| + |w|] == w;
    StrTokWord(s, |pre|, w, delims);
  }

  /** A delimiter at the save position is skipped like any other leading delimiter. */
  lemma StrTokSkip(s: string, pos: nat, delims: set<char>)
    requires pos < |s| && s[pos] in delims
    ensures StrTok(s, pos, delims) == StrTok(s, pos + 1, delims)
  {
    assert SkipDelims(s, pos, delims) == SkipDelims(s, pos + 1, delims);
  }

  /** `strtok_r` skips a whole run of separators before its token. */
  lemma {:induction false} StrTokSkipRun(s: string, pos: nat, n: nat, delims: set<char>)
    requires pos + n <= |s| && forall k :: pos <= k < pos + n ==> s[k] in delims
    ensures StrTok(s, pos, delims) == StrTok(s, pos + n, delims)
    decreases n
  {
    if n > 0 {
      StrTokSkip(s, pos, delims);
      StrTokSkipRun(s, pos + 1, n - 1, delims);
    }
  }

  /** Words joined by one delimiter character, as a user writes a list. */
  function Join(ws: seq<string>, d: char): string
  {
    if |ws| == 0 then "" else if |ws| == 1 then ws[0] else ws[0] + [d] + Join(ws[1..], d)
  }

  /** A token-shaped word: non-empty and free of delimiters. */
  predicate IsWord(w: string, delims: set<char>)
  {
    |w| > 0 && forall k :: 0 <= k < |w| ==> w[k] !in delims
  }

  predicate IsWordList(ws: seq<string>, delims: set<char>)
  {
    ws == [] || (IsWord(ws[0], delims) && IsWordList(ws[1..], delims))
  }

  /** Splitting a joined list of words gives the words back. */
  lemma SplitJoin(ws: seq<string>, d: char, delims: set<char>)
    requires d in delims && IsWordList(ws, delims)
    ensures Split(Join(ws, d), delims) == ws
  {
    var s := Join(ws, d);
    assert s[0..] == s;
    TokensFromJoin(s, 0, ws, d, delims);
  }

  lemma {:induction false} TokensFromJoin(s: string, pos: nat, ws: seq<string>, d: char, delims: set<char>)
    requires d in delims && IsWordList(ws, delims)
    requires pos <= |s| && s[pos..] == Join(ws, d)
    ensures TokensFrom(s, pos, delims) == ws
    decreases |ws|, 1
  {
    if |ws| == 0 {
      assert pos == |s|;
      assert StrTok(s, pos, delims).None?;
    } else if |ws| == 1 {
      TokensFromLast(s, pos, ws[0], delims);
      assert ws == [ws[0]];
    } else {
      TokensFromJoinCons(s, pos, ws, d, delims);
    }
  }

  lemma {:induction false} TokensFromJoinCons(s: string, pos: nat, ws: seq<string>, d: char, delims: set<char>)
    requires d in delims && |ws| >= 2 && IsWordList(ws, delims)
    requires pos <= |s| && s[pos..] == Join(ws, d)
    ensures TokensFrom(s, pos, delims) == ws
    decreases |ws|, 0
  {
    var rest := Join(ws[1..], d);
    assert Join(ws, d) == ws[0] + [d] + rest;
    var next := TokensFromFirst(s, pos, ws[0], d, rest, delims);
    TokensFromJoin(s, next, ws[1..], d, delims);
    assert ws == [ws[0]] + ws[1..];
  }

  /** The last word of a list: one token, then nothing. */
  lemma TokensFromLast(s: string, pos: nat, w: string, delims: set<char>)
    requires IsWord(w, delims)
    requires pos <= |s| && s[pos..] == w
    ensures TokensFrom(s, pos, delims) == [w]
  {
    SliceAt(s, pos, w, "");
    StrTokAt(s, pos, |w|, delims);
    assert TokenText(s, Token(pos, pos + |w|, pos + |w|)) == w;
    assert StrTok(s, pos + |w|, delims).None?;
  }

  /** A word followed by a delimiter: its token, then the tokens after the delimiter. */
  lemma TokensFromFirst(s: string, pos: nat, w: string, d: char, rest: string, delims: set<char>) returns (next: nat)
    requires d in delims && IsWord(w, delims)
    requires pos <= |s| && s[pos..] == w + [d] + rest
    ensures next <= |s| && s[next..] == rest
    ensures TokensFrom(s, pos, delims) == [w] + TokensFrom(s, next, delims)
  {
    next := pos + |w| + 1;
    assert s[pos..] == w + ([d] + rest);
    SliceAt(s, pos, w, [d] + rest);
    StrTokAt(s, pos, |w|, delims);
    var t := Token(pos, pos + |w|, next);
    assert StrTok(s, pos, delims) == Some(t);
    assert TokenText(s, t) == w;
    assert TokensFrom(s, pos, delims) == [TokenText(s, t)] + TokensFrom(s, t.next, delims);
    assert s[next..] == s[pos + |w|..][1..];
  }

  /** Where `w + rest` starts at `pos`, `w` is found at `pos` and `rest` right after it. */
  lemma SliceAt(s: string, pos: nat, w: string, rest: string)
    requires pos <= |s| && s[pos..] == w + rest
    ensures pos + |w| <= |s| && s[pos..pos + |w|] == w && s[pos + |w|..] == rest
    ensures forall k :: 0 <= k < |w| ==> s[pos + k] == w[k]
    ensures rest != [] ==> s[pos + |w|] == rest[0]
  {
    assert s[pos..][..|w|] == w;
    assert s[pos..][|w|..] == rest;
  }

  // ---------------------------------------------------------------------------
  // strtol(s, &end, 10)

  /** `isspace` in the C locale. */
  predicate IsSpace(c: char)
  {
    c == ' ' || c == '\t' || c == '\n' || c == '\U{000B}' || c == '\U{000C}' || c == '\r'
  }

  predicate IsDigit(c: char)
  {
    '0' <= c <= '9'
  }

  predicate AllDigits(s: string)
  {
    forall k :: 0 <= k < |s| ==> IsDigit(s[k])
  }

  function DigitValue(c: char): (v: nat)
    requires IsDigit(c)
    ensures v <= 9
  {
    (c as int) - ('0' as int)
  }

  /** The value of a string of decimal digits, most significant first. */
  function DecimalValue(d: string): nat
    requires AllDigits(d)
  {
    if |d| == 0 then 0 else DecimalValue(d[..|d| - 1]) * 10 + DigitValue(d[|d| - 1])
  }

  function SkipSpaces(s: string, i: nat): (j: nat)
    requires i <= |s|
    ensures i <= j <= |s|
    ensures forall k :: i <= k < j ==> IsSpace(s[k])
    ensures j < |s| ==> !IsSpace(s[j])
    decreases |s| - i
  {
    if i == |s| || !IsSpace(s[i]) then i else SkipSpaces(s, i + 1)
  }

  function DigitsEnd(s: string, i: nat): (j: nat)
    requires i <= |s|
    ensures i <= j <= |s|
    ensures forall k :: i <= k < j ==> IsDigit(s[k])
    ensures j < |s| ==> !IsDigit(s[j])
    decreases |s| - i
  {
    if i == |s| || !IsDigit(s[i]) then i else DigitsEnd(s, i + 1)
  }

  /** The converted value and the index `end_ptr` is left at. */
  datatype Conversion = Conversion(value: int, end: nat)

  /**
   * `strtol(s, &end_ptr, 10)`: optional white space, an optional sign, then
   * the longest run of decimal digits. Without digits nothing is consumed and
   * the value is 0. The model's value is unbounded: where the C function would
   * saturate at LONG_MAX or LONG_MIN, both are outside 0..255 with the same
   * sign, which is all its callers look at.
   */
  function StrToL(s: string): (r: Conversion)
    ensures r.end <= |s|
    ensures r.end == 0 ==> r.value == 0
    ensures r.end > 0 ==> IsDigit(s[r.end - 1])
    ensures r.value < 0 ==> exists k :: 0 <= k < r.end && s[k] == '-'
  {
    var i := SkipSpaces(s, 0);
    var signed := i < |s| && (s[i] == '+' || s[i] == '-');
    var j := if signed then i + 1 else i;
    var k := DigitsEnd(s, j);
    if k == j then Conversion(0, 0)
    else
      var magnitude: int := DecimalValue(s[j..k]);
      Conversion(if signed && s[i] == '-' then -magnitude else magnitude, k)
  }

  // ---------------------------------------------------------------------------
  // printf("%d")

  function DigitChar(d: nat): (c: char)
    requires d <= 9
    ensures IsDigit(c) && DigitValue(c) == d
  {
    ('0' as int + d) as char
  }

  /** A natural number written in decimal without leading zeros. */
  function Decimal(n: nat): (s: string)
    ensures |s| > 0 && AllDigits(s)
    ensures n > 0 ==> s[0] != '0'
  {
    if n < 10 then [DigitChar(n)] else Decimal(n / 10) + [DigitChar(n % 10)]
  }

  /** An integer written in decimal, with a leading `-` when negative. */
  function IntDecimal(n: int): string
  {
    if n < 0 then "-" + Decimal(-n) else Decimal(n)
  }

  /** Reading back a rendered number gives the number. */
  lemma {:induction false} DecimalRoundTrip(n: nat)
    ensures DecimalValue(Decimal(n)) == n
  {
    if n >= 10 {
      DecimalRoundTrip(n / 10);
      var s := Decimal(n);
      assert s[..|s| - 1] == Decimal(n / 10);
    }
  }

  /** Every character of a rendered integer is a digit or the minus sign. */
  lemma IntDecimalChars(n: int)
    ensures |IntDecimal(n)| > 0
    ensures forall k :: 0 <= k < |IntDecimal(n)| ==> IsDigit(IntDecimal(n)[k]) || IntDecimal(n)[k] == '-'
  {
  }

  /**
   * `strtol` reads a rendered integer up to the first character that is not
   * a digit, recovers the integer, and leaves `end_ptr` right after it.
   */
  lemma StrToLDecimal(n: int, rest: string)
    requires rest == [] || !IsDigit(rest[0])
    ensures StrToL(IntDecimal(n) + rest) == Conversion(n, |IntDecimal(n)|)
  {
    var d := IntDecimal(n);
    var s := d + rest;
    var m := if n < 0 then -n else n;
    var start := if n < 0 then 1 else 0;
    assert d[start..] == Decimal(m);
    assert !IsSpace(s[0]);
    assert SkipSpaces(s, 0) == 0;
    DigitsEndAt(s, start, |d|);
    DecimalRoundTrip(m);
    assert s[start..|d|] == Decimal(m);
  }

  lemma {:induction false} DigitsEndAt(s: string, i: nat, e: nat)
    requires i <= e <= |s|
    requires forall k :: i <= k < e ==> IsDigit(s[k])
    requires e == |s| || !IsDigit(s[e])
    ensures DigitsEnd(s, i) == e
    decreases e - i
  {
    if i < e {
      DigitsEndAt(s, i + 1, e);
    }
  }

  /** `strtol` also accepts one leading blank or an explicit `+` before the digits. */
  lemma StrToLLenient(lead: string, n: nat)
    requires lead == " " || lead == "+"
    ensures StrToL(lead + Decimal(n)) == Conversion(n, 1 + |Decimal(n)|)
  {
    var d := Decimal(n);
    var s := lead + d;
    assert s[1..] == d;
    if lead == " " {
      assert SkipSpaces(s, 1) == 1;
      assert SkipSpaces(s, 0) == 1;
    } else {
      assert SkipSpaces(s, 0) == 0;
    }
    DigitsEndAt(s, 1, |s|);
    DecimalRoundTrip(n);
    assert s[1..|s|] == d;
  }
}
