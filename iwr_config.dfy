/**
 * parseConfigFile for the IWR1443: the configuration lines are split on single
 * spaces, and the profileCfg and frameCfg lines supply the integer parameters
 * from which the Doppler and range bin counts are derived.
 */
module IwrConfig {
  import opened Common

  const NumRxAnt: nat := 4
  const NumTxAnt: nat := 2
  const ProfileKey: string := "profileCfg"
  const FrameKey: string := "frameCfg"

  /**
   * The exceptions of parseConfigFile that its integer tokens decide:
   * IndexError for a missing token, ValueError for a token int() rejects,
   * NameError when no profile or no frame line was seen and a parameter is
   * read unbound, ZeroDivisionError when numAdcSamples or numChirpsPerFrame
   * is zero and a derived entry divides by it.
   */
  datatype ConfigError = IndexError | ValueError | NameError | ZeroDivisionError

  /** The integer fields of a profileCfg line (tokens 3, 10 and 11). */
  datatype Profile = Profile(idleTime: int, numAdcSamples: int, numAdcSamplesRoundTo2: nat, digOutSampleRate: int)

  /** The fields of a frameCfg line (tokens 1 to 5). */
  datatype Frame = Frame(chirpStartIdx: int, chirpEndIdx: int, numLoops: int, numFrames: int, framePeriodicity: int)

  /** The variables the loop over lines has bound so far. */
  datatype Bound = Bound(profile: Option<Profile>, frame: Option<Frame>)

  /** The integer-derived entries of configParameters. */
  datatype ConfigParameters = ConfigParameters(numDopplerBins: real, numRangeBins: nat)

  // ---- Strings ----

  /** rstrip('\r\n'): every trailing carriage return and line feed is removed. */
  function RStripCrLf(s: string): (r: string)
    ensures |r| <= |s| && r == s[..|r|]
    ensures r == [] || (r[|r| - 1] != '\r' && r[|r| - 1] != '\n')
    ensures forall i :: |r| <= i < |s| ==> s[i] == '\r' || s[i] == '\n'
  {
    if |s| > 0 && (s[|s| - 1] == '\r' || s[|s| - 1] == '\n') then RStripCrLf(s[..|s| - 1]) else s
  }

  /** str.split(" "): the pieces between single spaces, empty pieces included. */
  function Split(s: string): (r: seq<string>)
    ensures |r| >= 1
    ensures forall k :: 0 <= k < |r| ==> ' ' !in r[k]
  {
    if s == [] then [""]
    else
      var rest := Split(s[1..]);
      if s[0] == ' ' then [""] + rest else [[s[0]] + rest[0]] + rest[1..]
  }

  /** " ".join(tokens). */
  function Join(tokens: seq<string>): string
    requires |tokens| >= 1
  {
    if |tokens| == 1 then tokens[0] else tokens[0] + " " + Join(tokens[1..])
  }

  lemma {:induction false} JoinSplit(s: string)
    ensures Join(Split(s)) == s
  {
    if s != [] {
      JoinSplit(s[1..]);
      var rest := Split(s[1..]);
      if s[0] == ' ' {
        assert Split(s)[1..] == rest;
      } else if |rest| == 1 {
        assert Join(Split(s)) == [s[0]] + rest[0];
      } else {
        assert Join(Split(s)) == [s[0]] + rest[0] + " " + Join(rest[1..]);
        assert Join(rest) == rest[0] + " " + Join(rest[1..]);
      }
    }
  }

  lemma {:induction false} SplitJoin(tokens: seq<string>)
    requires |tokens| >= 1
    requires forall k :: 0 <= k < |tokens| ==> ' ' !in tokens[k]
    ensures Split(Join(tokens)) == tokens
    decreases |tokens|, |tokens[0]|
  {
    if |tokens| == 1 {
      SplitWord(tokens[0]);
    } else if tokens[0] == [] {
      SplitJoin(tokens[1..]);
      assert Join(tokens) == [' '] + Join(tokens[1..]);
      SplitCons(' ', Join(tokens[1..]));
    } else {
      var c := tokens[0][0];
      var t' := [tokens[0][1..]] + tokens[1..];
      DropFirstChar(tokens);
      SplitJoin(t');
      assert t'[1..] == tokens[1..];
      assert Join(t') == tokens[0][1..] + " " + Join(tokens[1..]);
      assert Join(tokens) == [c] + Join(t');
      assert c in tokens[0];
      SplitCons(c, Join(t'));
      assert [c] + tokens[0][1..] == tokens[0];
      assert [[c] + t'[0]] + t'[1..] == tokens;
    }
  }

  /** Split of a string, one character at a time. */
  lemma SplitCons(c: char, s: string)
    ensures c == ' ' ==> Split([c] + s) == [""] + Split(s)
    ensures c != ' ' ==> Split([c] + s) == [[c] + Split(s)[0]] + Split(s)[1..]
  {
    assert ([c] + s)[1..] == s;
  }

  /** Dropping the first character of the first token keeps every token free of spaces. */
  lemma DropFirstChar(tokens: seq<string>)
    requires |tokens| >= 1 && tokens[0] != []
    requires forall k :: 0 <= k < |tokens| ==> ' ' !in tokens[k]
    ensures var t' := [tokens[0][1..]] + tokens[1..]; forall k :: 0 <= k < |t'| ==> ' ' !in t'[k]
  {
    var t' := [tokens[0][1..]] + tokens[1..];
    forall k | 0 <= k < |t'| ensures ' ' !in t'[k] {
      if k == 0 {
        assert forall c :: c in tokens[0][1..] ==> c in tokens[0];
      } else {
        assert t'[k] == tokens[k];
      }
    }
  }

  /** A string without a space is one token. */
  lemma {:induction false} SplitWord(w: string)
    requires ' ' !in w
    ensures Split(w) == [w]
  {
    if w != [] {
      assert forall c :: c in w[1..] ==> c in w;
      SplitWord(w[1..]);
      assert w[0] in w;
      assert [w[0]] + w[1..] == w;
    }
  }

  predicate OccursAt(s: string, pat: string, i: nat)
  {
    i + |pat| <= |s| && s[i..i + |pat|] == pat
  }

  /** Substring test: `pat in s`. */
  ghost predicate Contains(s: string, pat: string)
  {
    exists i: nat :: i <= |s| && OccursAt(s, pat, i)
  }

  /** The substring test computed by scanning s from the left. */
  predicate ContainsText(s: string, pat: string)
    decreases |s|
  {
    (|pat| <= |s| && s[..|pat|] == pat) || (|s| > 0 && ContainsText(s[1..], pat))
  }

  lemma {:induction false} ContainsTextSpec(s: string, pat: string)
    ensures ContainsText(s, pat) <==> Contains(s, pat)
    decreases |s|
  {
    if |pat| <= |s| && s[..|pat|] == pat {
      assert OccursAt(s, pat, 0);
    } else if |s| > 0 {
      ContainsTextSpec(s[1..], pat);
      if Contains(s[1..], pat) {
        var i: nat :| i <= |s[1..]| && OccursAt(s[1..], pat, i);
        OccursShift(s, pat, i);
      }
      if Contains(s, pat) {
        var i: nat :| i <= |s| && OccursAt(s, pat, i);
        assert i != 0;
        OccursShift(s, pat, i - 1);
      }
    }
  }

  /** An occurrence in the tail of s is an occurrence in s one place later. */
  lemma OccursShift(s: string, pat: string, i: nat)
    requires |s| > 0
    ensures OccursAt(s[1..], pat, i) <==> OccursAt(s, pat, i + 1)
  {
    if i + 1 + |pat| <= |s| {
      assert s[1..][i..i + |pat|] == s[i + 1..i + 1 + |pat|];
    }
  }

  // ---- int() on a token ----

  predicate IsDigit(c: char)
  {
    '0' <= c <= '9'
  }

  /** The value of a run of decimal digits, most significant first. */
  function DigitsValue(s: string): (r: nat)
    requires forall i :: 0 <= i < |s| ==> IsDigit(s[i])
  {
    if s == [] then 0
    else
      assert IsDigit(s[|s| - 1]);
      10 * DigitsValue(s[..|s| - 1]) + (s[|s| - 1] as int - '0' as int)
  }

  predicate AllDigits(s: string)
  {
    |s| >= 1 && forall i :: 0 <= i < |s| ==> IsDigit(s[i])
  }

  /** int(token): an optional sign followed by at least one decimal digit. */
  function ParseInt(s: string): (r: Option<int>)
    ensures r.Some? <==> (AllDigits(s) || (|s| >= 2 && (s[0] == '-' || s[0] == '+') && AllDigits(s[1..])))
  {
    if AllDigits(s) then Some(DigitsValue(s))
    else if |s| >= 2 && s[0] == '-' && AllDigits(s[1..]) then Some(-(DigitsValue(s[1..]) as int))
    else if |s| >= 2 && s[0] == '+' && AllDigits(s[1..]) then Some(DigitsValue(s[1..]))
    else None
  }

  /** The decimal text of a natural number, without leading zeros. */
  function NatText(n: nat): (r: string)
    ensures AllDigits(r)
  {
    if n < 10 then [('0' as int + n) as char] else NatText(n / 10) + [('0' as int + n % 10) as char]
  }

  function IntText(n: int): string
  {
    if n < 0 then "-" + NatText(-n) else NatText(n)
  }

  lemma {:induction false} NatTextValue(n: nat)
    ensures DigitsValue(NatText(n)) == n
  {
    if n >= 10 {
      NatTextValue(n / 10);
      var t := NatText(n);
      assert t[..|t| - 1] == NatText(n / 10);
    }
  }

  /** int() reads back every integer's decimal text. */
  lemma ParseIntText(n: int)
    ensures ParseInt(IntText(n)) == Some(n)
  {
    if n < 0 {
      NatTextValue(-n);
      ParseNegative(NatText(-n));
    } else {
      NatTextValue(n);
    }
  }

  /** A minus sign before a run of digits reads as the negated value. */
  lemma ParseNegative(d: string)
    requires AllDigits(d)
    ensures ParseInt("-" + d) == Some(-(DigitsValue(d) as int))
  {
    var s := "-" + d;
    assert s[0] == '-' && !IsDigit(s[0]);
    assert s[1..] == d;
  }

  // ---- Powers of two ----

  /** Among powers of two, a smaller one divides into the larger's half. */
  lemma {:induction false} Pow2Below(a: nat, b: nat)
    requires IsPow2(a) && IsPow2(b) && a < b
    ensures a <= b / 2
    decreases b
  {
    if a > 1 && b / 2 > 1 {
      Pow2Below(a / 2, b / 2);
    }
  }

  /** The bound smallest-power-of-two-at-least-n pins the value down: there is only one. */
  lemma RoundUpUnique(n: int, r1: nat, r2: nat)
    requires IsPow2(r1) && r1 >= n && (r1 == 1 || r1 / 2 < n)
    requires IsPow2(r2) && r2 >= n && (r2 == 1 || r2 / 2 < n)
    ensures r1 == r2
  {
    if r1 < r2 {
      Pow2Below(r1, r2);
    } else if r2 < r1 {
      Pow2Below(r2, r1);
    }
  }

  /** numAdcSamplesRoundTo2: doubled from 1 until it is at least numAdcSamples. */
  method RoundUpPow2(numAdcSamples: int) returns (numAdcSamplesRoundTo2: nat)
    ensures IsPow2(numAdcSamplesRoundTo2) && numAdcSamplesRoundTo2 >= numAdcSamples
    ensures numAdcSamplesRoundTo2 == 1 || numAdcSamplesRoundTo2 / 2 < numAdcSamples
  {
    numAdcSamplesRoundTo2 := 1;
    while numAdcSamples > numAdcSamplesRoundTo2
      invariant IsPow2(numAdcSamplesRoundTo2)
      invariant numAdcSamplesRoundTo2 == 1 || numAdcSamplesRoundTo2 / 2 < numAdcSamples
      decreases numAdcSamples - numAdcSamplesRoundTo2
    {
      numAdcSamplesRoundTo2 := numAdcSamplesRoundTo2 * 2;
    }
  }

  /** The same bound, as a function for the specification below. */
  function RoundedUp(n: int): (r: nat)
    ensures IsPow2(r) && r >= n && (r == 1 || r / 2 < n)
    decreases if n > 1 then n else 0
  {
    if n <= 1 then 1 else 2 * RoundedUp((n + 1) / 2)
  }

  // ---- One line, and the whole file ----

  /**
   * The profileCfg branch, in the order its tokens are read. Tokens 2, 5
   * and 8 go through float(), which the model does not parse.
   */
  function ParseProfile(tokens: seq<string>): Result<Profile, ConfigError>
  {
    if |tokens| < 4 then Err(IndexError)
    else if ParseInt(tokens[3]).None? then Err(ValueError)
    else if |tokens| < 11 then Err(IndexError)
    else if ParseInt(tokens[10]).None? then Err(ValueError)
    else if |tokens| < 12 then Err(IndexError)
    else if ParseInt(tokens[11]).None? then Err(ValueError)
    else
      var n := ParseInt(tokens[10]).value;
      Ok(Profile(ParseInt(tokens[3]).value, n, RoundedUp(n), ParseInt(tokens[11]).value))
  }

  /** The frameCfg branch: tokens 1 to 5, each through int(). */
  function ParseFrame(tokens: seq<string>): Result<Frame, ConfigError>
  {
    if |tokens| < 2 then Err(IndexError)
    else if ParseInt(tokens[1]).None? then Err(ValueError)
    else if |tokens| < 3 then Err(IndexError)
    else if ParseInt(tokens[2]).None? then Err(ValueError)
    else if |tokens| < 4 then Err(IndexError)
    else if ParseInt(tokens[3]).None? then Err(ValueError)
    else if |tokens| < 5 then Err(IndexError)
    else if ParseInt(tokens[4]).None? then Err(ValueError)
    else if |tokens| < 6 then Err(IndexError)
    else if ParseInt(tokens[5]).None? then Err(ValueError)
    else Ok(Frame(ParseInt(tokens[1]).value, ParseInt(tokens[2]).value, ParseInt(tokens[3]).value,
                  ParseInt(tokens[4]).value, ParseInt(tokens[5]).value))
  }

  /** One pass of the loop body: a profile line, else a frame line, else nothing. */
  function Step(b: Bound, line: string): Result<Bound, ConfigError>
  {
    var tokens := Split(RStripCrLf(line));
    if ContainsText(tokens[0], ProfileKey) then
      match ParseProfile(tokens)
      case Err(e) => Err(e)
      case Ok(p) => Ok(b.(profile := Some(p)))
    else if ContainsText(tokens[0], FrameKey) then
      match ParseFrame(tokens)
      case Err(e) => Err(e)
      case Ok(f) => Ok(b.(frame := Some(f)))
    else Ok(b)
  }

  /** The loop over lines in order; the first exception ends it. */
  function Fold(b: Bound, lines: seq<string>): Result<Bound, ConfigError>
    decreases |lines|
  {
    if lines == [] then Ok(b)
    else
      match Step(b, lines[0])
      case Err(e) => Err(e)
      case Ok(b') => Fold(b', lines[1..])
  }

  /**
   * The entries computed after the loop. rangeResolutionMeters divides by a
   * multiple of numAdcSamples and dopplerResolutionMps by a multiple of
   * numDopplerBins, so a zero in either raises before the dict is returned.
   */
  function Derive(b: Bound): Result<ConfigParameters, ConfigError>
  {
    match b
    case Bound(Some(p), Some(f)) =>
      var numChirpsPerFrame := ChirpsPerFrame(f.chirpStartIdx, f.chirpEndIdx, f.numLoops);
      if p.numAdcSamples == 0 || numChirpsPerFrame == 0 then Err(ZeroDivisionError)
      else Ok(ConfigParameters(numChirpsPerFrame as real / NumTxAnt as real, p.numAdcSamplesRoundTo2))
    case _ => Err(NameError)
  }

  /** numChirpsPerFrame: (chirpEndIdx - chirpStartIdx + 1) chirps, numLoops times. */
  function ChirpsPerFrame(chirpStartIdx: int, chirpEndIdx: int, numLoops: int): int
  {
    (chirpEndIdx - chirpStartIdx + 1) * numLoops
  }

  function ConfigOf(lines: seq<string>): Result<ConfigParameters, ConfigError>
  {
    match Fold(Bound(None, None), lines)
    case Err(e) => Err(e)
    case Ok(b) => Derive(b)
  }

  /** parseConfigFile over the lines of the file. */
  method ParseConfigFile(config: seq<string>) returns (r: Result<ConfigParameters, ConfigError>)
    ensures r == ConfigOf(config)
  {
    var profile: Option<Profile> := None;
    var frame: Option<Frame> := None;
    for i := 0 to |config|
      invariant Fold(Bound(None, None), config) == Fold(Bound(profile, frame), config[i..])
    {
      assert config[i..][1..] == config[i + 1..];
      var splitWords := Split(RStripCrLf(config[i]));
      if ContainsText(splitWords[0], ProfileKey) {
        var p := ParseProfileLine(splitWords);
        if p.Err? {
          return Err(p.error);
        }
        profile := Some(p.value);
      } else if ContainsText(splitWords[0], FrameKey) {
        var f := ParseFrame(splitWords);
        if f.Err? {
          return Err(f.error);
        }
        frame := Some(f.value);
      }
    }
    assert config[|config|..] == [];
    r := Derive(Bound(profile, frame));
  }

  /** The profileCfg branch with its doubling loop. */
  method ParseProfileLine(splitWords: seq<string>) returns (r: Result<Profile, ConfigError>)
    ensures r == ParseProfile(splitWords)
  {
    if |splitWords| < 4 || ParseInt(splitWords[3]).None? || |splitWords| < 11 || ParseInt(splitWords[10]).None?
       || |splitWords| < 12 || ParseInt(splitWords[11]).None? {
      return ParseProfile(splitWords);
    }
    var idleTime := ParseInt(splitWords[3]).value;
    var numAdcSamples := ParseInt(splitWords[10]).value;
    var numAdcSamplesRoundTo2 := RoundUpPow2(numAdcSamples);
    RoundUpUnique(numAdcSamples, numAdcSamplesRoundTo2, RoundedUp(numAdcSamples));
    var digOutSampleRate := ParseInt(splitWords[11]).value;
    r := Ok(Profile(idleTime, numAdcSamples, numAdcSamplesRoundTo2, digOutSampleRate));
  }

  // ---- Properties of the whole parse ----

  /** Processing lines one after another is processing their concatenation. */
  lemma {:induction false} FoldAppend(b: Bound, xs: seq<string>, ys: seq<string>)
    ensures Fold(b, xs + ys) == match Fold(b, xs) case Err(e) => Err(e) case Ok(b') => Fold(b', ys)
    decreases |xs|
  {
    if xs == [] {
      assert xs + ys == ys;
    } else {
      assert (xs + ys)[0] == xs[0];
      assert (xs + ys)[1..] == xs[1..] + ys;
      match Step(b, xs[0])
      case Err(_) =>
      case Ok(b') => FoldAppend(b', xs[1..], ys);
    }
  }

  /** One line appended to lines that processed to b. */
  lemma {:induction false} FoldLast(lines: seq<string>, line: string, b: Bound)
    requires Fold(Bound(None, None), lines) == Ok(b)
    ensures Fold(Bound(None, None), lines + [line]) == Step(b, line)
  {
    FoldAppend(Bound(None, None), lines, [line]);
    assert [line][1..] == [];
    match Step(b, line)
    case Err(_) =>
    case Ok(b') => assert Fold(b', []) == Ok(b');
  }

  /** A frame line that parses replaces whatever frame came before; the profile is kept. */
  lemma LaterFrameLineWins(lines: seq<string>, line: string, b: Bound)
    requires Fold(Bound(None, None), lines) == Ok(b)
    requires var t := Split(RStripCrLf(line)); !Contains(t[0], ProfileKey) && Contains(t[0], FrameKey) && ParseFrame(t).Ok?
    ensures Fold(Bound(None, None), lines + [line])
         == Ok(Bound(b.profile, Some(ParseFrame(Split(RStripCrLf(line))).value)))
  {
    var t := Split(RStripCrLf(line));
    ContainsTextSpec(t[0], ProfileKey);
    ContainsTextSpec(t[0], FrameKey);
    FoldLast(lines, line, b);
  }

  /** A profile line that parses replaces whatever profile came before; the frame is kept. */
  lemma LaterProfileLineWins(lines: seq<string>, line: string, b: Bound)
    requires Fold(Bound(None, None), lines) == Ok(b)
    requires var t := Split(RStripCrLf(line)); Contains(t[0], ProfileKey) && ParseProfile(t).Ok?
    ensures Fold(Bound(None, None), lines + [line])
         == Ok(Bound(Some(ParseProfile(Split(RStripCrLf(line))).value), b.frame))
  {
    var t := Split(RStripCrLf(line));
    ContainsTextSpec(t[0], ProfileKey);
    FoldLast(lines, line, b);
  }

  /** A line naming neither key changes nothing and raises nothing. */
  lemma OtherLineIgnored(lines: seq<string>, line: string)
    requires var t := Split(RStripCrLf(line)); !Contains(t[0], ProfileKey) && !Contains(t[0], FrameKey)
    ensures Fold(Bound(None, None), lines + [line]) == Fold(Bound(None, None), lines)
  {
    var t := Split(RStripCrLf(line));
    ContainsTextSpec(t[0], ProfileKey);
    ContainsTextSpec(t[0], FrameKey);
    match Fold(Bound(None, None), lines)
    case Err(_) => FoldAppend(Bound(None, None), lines, [line]);
    case Ok(b) => FoldLast(lines, line, b);
  }

  /** Without both a profile line and a frame line the derived values are read unbound. */
  lemma MissingLineIsNameError(lines: seq<string>, b: Bound)
    requires Fold(Bound(None, None), lines) == Ok(b) && (b.profile.None? || b.frame.None?)
    ensures ConfigOf(lines) == Err(NameError)
  {
  }

  /** The bound profile, if any, holds the round-up of its own sample count. */
  ghost predicate RoundedProfile(b: Bound)
  {
    b.profile.Some? ==> b.profile.value.numAdcSamplesRoundTo2 == RoundedUp(b.profile.value.numAdcSamples)
  }

  /** The loop over lines keeps numAdcSamplesRoundTo2 tied to numAdcSamples. */
  lemma {:induction false} FoldKeepsRounded(b: Bound, lines: seq<string>)
    requires RoundedProfile(b)
    ensures Fold(b, lines).Ok? ==> RoundedProfile(Fold(b, lines).value)
    decreases |lines|
  {
    if lines != [] {
      match Step(b, lines[0])
      case Err(_) =>
      case Ok(b') => FoldKeepsRounded(b', lines[1..]);
    }
  }

  /**
   * With both lines seen, the parse fails exactly when a divisor is zero, and
   * otherwise returns nonzero Doppler bins and at least one range bin.
   */
  lemma ZeroCountIsZeroDivision(lines: seq<string>, p: Profile, f: Frame)
    requires Fold(Bound(None, None), lines) == Ok(Bound(Some(p), Some(f)))
    ensures ConfigOf(lines).Err? <==> p.numAdcSamples == 0 || ChirpsPerFrame(f.chirpStartIdx, f.chirpEndIdx, f.numLoops) == 0
    ensures ConfigOf(lines).Err? ==> ConfigOf(lines) == Err(ZeroDivisionError)
    ensures ConfigOf(lines).Ok? ==> ConfigOf(lines).value.numDopplerBins != 0.0 && ConfigOf(lines).value.numRangeBins >= 1
  {
    FoldKeepsRounded(Bound(None, None), lines);
  }

  /** A profile line of the given integers and filler tokens. */
  function ProfileTokens(filler: string, idle: int, adc: int, rate: int): seq<string>
  {
    [ProfileKey, filler, filler, IntText(idle), filler, filler, filler, filler, filler, filler, IntText(adc), IntText(rate)]
  }

  function FrameTokens(start: int, end: int, loops: int, frames: int, period: int): seq<string>
  {
    [FrameKey, IntText(start), IntText(end), IntText(loops), IntText(frames), IntText(period)]
  }

  /** A pattern longer than the text does not occur in it. */
  lemma {:induction false} TooLongNotContained(s: string, pat: string)
    requires |pat| > |s|
    ensures !ContainsText(s, pat)
    decreases |s|
  {
    if |s| > 0 {
      TooLongNotContained(s[1..], pat);
    }
  }

  /** Joined with spaces, a line whose last token is a number splits back into its tokens. */
  lemma {:induction false} LineTokens(tokens: seq<string>, n: int)
    requires |tokens| >= 1 && tokens[|tokens| - 1] == IntText(n)
    requires forall k :: 0 <= k < |tokens| ==> ' ' !in tokens[k]
    ensures Split(RStripCrLf(Join(tokens))) == tokens
  {
    SplitJoin(tokens);
    JoinEnd(tokens);
    var j := Join(tokens);
    var t := IntText(n);
    var d := NatText(if n < 0 then -n else n);
    assert t[|t| - 1] == d[|d| - 1];
    assert j[|j| - 1] == j[|j| - |t|..][|t| - 1];
    NoLineEnd(j);
  }

  lemma ProfileLineParses(filler: string, idle: int, adc: int, rate: int, b: Bound)
    requires ' ' !in filler
    ensures Step(b, Join(ProfileTokens(filler, idle, adc, rate)))
         == Ok(b.(profile := Some(Profile(idle, adc, RoundedUp(adc), rate))))
  {
    var t := ProfileTokens(filler, idle, adc, rate);
    ProfileTokensSplit(filler, idle, adc, rate);
    ProfileTokensParse(filler, idle, adc, rate);
    KeysNamed();
    ProfileStep(b, Join(t), t, Profile(idle, adc, RoundedUp(adc), rate));
  }

  lemma ProfileTokensSplit(filler: string, idle: int, adc: int, rate: int)
    requires ' ' !in filler
    ensures var t := ProfileTokens(filler, idle, adc, rate); Split(RStripCrLf(Join(t))) == t
  {
    TextHasNoSpace(idle);
    TextHasNoSpace(adc);
    TextHasNoSpace(rate);
    LineTokens(ProfileTokens(filler, idle, adc, rate), rate);
  }

  lemma ProfileTokensParse(filler: string, idle: int, adc: int, rate: int)
    ensures ParseProfile(ProfileTokens(filler, idle, adc, rate)) == Ok(Profile(idle, adc, RoundedUp(adc), rate))
  {
    ParseIntText(idle);
    ParseIntText(adc);
    ParseIntText(rate);
  }

  /** A line whose first token names profileCfg and whose tokens parse binds the profile. */
  lemma ProfileStep(b: Bound, line: string, t: seq<string>, p: Profile)
    requires Split(RStripCrLf(line)) == t && ContainsText(t[0], ProfileKey) && ParseProfile(t) == Ok(p)
    ensures Step(b, line) == Ok(b.(profile := Some(p)))
  {
  }

  /** A line whose first token names frameCfg but not profileCfg, and whose tokens parse, binds the frame. */
  lemma FrameStep(b: Bound, line: string, t: seq<string>, f: Frame)
    requires Split(RStripCrLf(line)) == t && !ContainsText(t[0], ProfileKey) && ContainsText(t[0], FrameKey)
    requires ParseFrame(t) == Ok(f)
    ensures Step(b, line) == Ok(b.(frame := Some(f)))
  {
  }

  lemma FrameLineParses(start: int, end: int, loops: int, frames: int, period: int, b: Bound)
    ensures Step(b, Join(FrameTokens(start, end, loops, frames, period)))
         == Ok(b.(frame := Some(Frame(start, end, loops, frames, period))))
  {
    var t := FrameTokens(start, end, loops, frames, period);
    FrameTokensSplit(start, end, loops, frames, period);
    FrameTokensParse(start, end, loops, frames, period);
    KeysNamed();
    FrameStep(b, Join(t), t, Frame(start, end, loops, frames, period));
  }

  lemma FrameTokensSplit(start: int, end: int, loops: int, frames: int, period: int)
    ensures var t := FrameTokens(start, end, loops, frames, period); Split(RStripCrLf(Join(t))) == t
  {
    TextHasNoSpace(start);
    TextHasNoSpace(end);
    TextHasNoSpace(loops);
    TextHasNoSpace(frames);
    TextHasNoSpace(period);
    LineTokens(FrameTokens(start, end, loops, frames, period), period);
  }

  /** Each key names itself, and the frame key does not name the profile key. */
  lemma KeysNamed()
    ensures ContainsText(ProfileKey, ProfileKey) && ContainsText(FrameKey, FrameKey)
    ensures !ContainsText(FrameKey, ProfileKey)
  {
    assert ProfileKey[..|ProfileKey|] == ProfileKey;
    assert FrameKey[..|FrameKey|] == FrameKey;
    TooLongNotContained(FrameKey, ProfileKey);
  }

  lemma FrameTokensParse(start: int, end: int, loops: int, frames: int, period: int)
    ensures ParseFrame(FrameTokens(start, end, loops, frames, period)) == Ok(Frame(start, end, loops, frames, period))
  {
    ParseIntText(start);
    ParseIntText(end);
    ParseIntText(loops);
    ParseIntText(frames);
    ParseIntText(period);
  }

  /**
   * A file of one profile line and one frame line holding the given integers
   * yields numDopplerBins = (end - start + 1) * loops / 2 and numRangeBins =
   * numAdcSamples rounded up to a power of two, unless numAdcSamples or the
   * chirp count is zero and a derived entry divides by zero.
   */
  lemma TwoLineConfig(filler: string, idle: int, adc: int, rate: int, start: int, end: int, loops: int, frames: int, period: int)
    requires ' ' !in filler
    ensures ConfigOf([Join(ProfileTokens(filler, idle, adc, rate)), Join(FrameTokens(start, end, loops, frames, period))])
         == if adc == 0 || ChirpsPerFrame(start, end, loops) == 0 then Err(ZeroDivisionError)
            else Ok(ConfigParameters(ChirpsPerFrame(start, end, loops) as real / 2.0, RoundedUp(adc)))
  {
    var b1 := Bound(Some(Profile(idle, adc, RoundedUp(adc), rate)), None);
    ProfileLineParses(filler, idle, adc, rate, Bound(None, None));
    FrameLineParses(start, end, loops, frames, period, b1);
    TwoLines(Join(ProfileTokens(filler, idle, adc, rate)), Join(FrameTokens(start, end, loops, frames, period)),
             idle, adc, rate, start, end, loops, frames, period);
  }

  lemma TwoLines(pl: string, fl: string, idle: int, adc: int, rate: int, start: int, end: int, loops: int, frames: int, period: int)
    requires Step(Bound(None, None), pl) == Ok(Bound(Some(Profile(idle, adc, RoundedUp(adc), rate)), None))
    requires Step(Bound(Some(Profile(idle, adc, RoundedUp(adc), rate)), None), fl)
          == Ok(Bound(Some(Profile(idle, adc, RoundedUp(adc), rate)), Some(Frame(start, end, loops, frames, period))))
    ensures ConfigOf([pl, fl])
         == if adc == 0 || ChirpsPerFrame(start, end, loops) == 0 then Err(ZeroDivisionError)
            else Ok(ConfigParameters(ChirpsPerFrame(start, end, loops) as real / 2.0, RoundedUp(adc)))
  {
    var b := Bound(Some(Profile(idle, adc, RoundedUp(adc), rate)), Some(Frame(start, end, loops, frames, period)));
    assert [pl, fl][1..] == [fl];
    assert [fl][1..] == [];
    assert Fold(b, []) == Ok(b);
    assert Fold(Bound(None, None), [pl, fl]) == Ok(b);
  }

  lemma TextHasNoSpace(n: int)
    ensures ' ' !in IntText(n)
  {
    var t := NatText(if n < 0 then -n else n);
    assert forall i :: 0 <= i < |t| ==> t[i] != ' ';
  }

  /** A join ends with its last token. */
  lemma {:induction false} JoinEnd(tokens: seq<string>)
    requires |tokens| >= 1
    ensures var j := Join(tokens); var t := tokens[|tokens| - 1];
            |t| <= |j| && j[|j| - |t|..] == t
  {
    if |tokens| > 1 {
      JoinEnd(tokens[1..]);
      assert tokens[1..][|tokens| - 2] == tokens[|tokens| - 1];
      var t := tokens[|tokens| - 1];
      var rest := Join(tokens[1..]);
      var j := Join(tokens);
      assert j == tokens[0] + " " + rest;
      assert j[|j| - |t|..] == rest[|rest| - |t|..];
    }
  }

  lemma NoLineEnd(s: string)
    requires |s| > 0 && IsDigit(s[|s| - 1])
    ensures RStripCrLf(s) == s
  {
  }
}
