/**
 * The log command parser: from what the argument tokenizer found in the text after
 * the command word to one of four log modes (plain log, override, reset, reset all)
 * or a parse error. The tokenizer, the name and hours parsers and the flag texts are
 * inputs here, since their definitions are not part of this model.
 */
module LogParser {
  import opened Wrappers

  /** What the tokenizer found: the preamble and the values of n/, h/ and the flag prefix. */
  datatype ArgumentMultimap = ArgumentMultimap(
    preamble: string,
    name: Option<string>,
    hours: Option<string>,
    flag: Option<string>)

  /** The texts of the three flags a log command knows. */
  datatype Flags = Flags(reset: string, overriding: string, resetAll: string)

  predicate DistinctFlags(flags: Flags) {
    flags.reset != flags.overriding && flags.reset != flags.resetAll && flags.overriding != flags.resetAll
  }

  /** The log command the parser builds; None stands for a null name or null hours. */
  datatype LogCommand<N, H> = LogCommand(
    studySpot: Option<N>,
    hoursStudied: Option<H>,
    isReset: bool,
    isOverride: bool,
    isResetAll: bool)

  /** The usage error, or the error a name or hours parser reported. */
  datatype ParseError = InvalidCommandFormat | ParseFailure(message: string)

  /** `s.contains(t)`: `t` occurs in `s` as a contiguous piece. */
  function ContainsText(s: string, t: string): (b: bool)
    ensures t <= s ==> b
    ensures b ==> |t| <= |s|
  {
    t <= s || (s != [] && ContainsText(s[1..], t))
  }

  /** `t` starts at position `i` of `s`. */
  predicate OccursAt(s: string, t: string, i: nat)
    requires i <= |s|
  {
    t <= s[i..]
  }

  /** ContainsText means that `t` starts at some position of `s`. */
  lemma {:induction false} ContainsTextIsOccurrence(s: string, t: string)
    ensures ContainsText(s, t) <==> exists i | 0 <= i <= |s| :: OccursAt(s, t, i)
    decreases |s|
  {
    if t <= s {
      assert OccursAt(s, t, 0);
    } else {
      assert !OccursAt(s, t, 0);
      if s != [] {
        ContainsTextIsOccurrence(s[1..], t);
        forall i | 1 <= i <= |s| ensures OccursAt(s, t, i) == OccursAt(s[1..], t, i - 1) {
          assert s[i..] == s[1..][i - 1..];
        }
        if ContainsText(s[1..], t) {
          var i :| 0 <= i <= |s| - 1 && OccursAt(s[1..], t, i);
          assert OccursAt(s, t, i + 1);
        }
      }
    }
  }

  /** The first check: no n/ or a non-empty preamble, unless the text mentions the reset-all flag. */
  function BadFormat(args: string, tokens: ArgumentMultimap, flags: Flags): (b: bool)
    ensures b ==> tokens.name.None? || |tokens.preamble| > 0
    ensures flags.resetAll <= args ==> !b
    ensures |args| < |flags.resetAll| && tokens.name.None? ==> b
  {
    (tokens.name.None? || tokens.preamble != "") && !ContainsText(args, flags.resetAll)
  }

  /** The flag value is `f`. */
  predicate FlagIs(tokens: ArgumentMultimap, f: string) {
    tokens.flag.Some? && tokens.flag.value == f
  }

  /** A given n/ value is a name the name parser accepts. */
  predicate NameParses<N>(tokens: ArgumentMultimap, parseName: string -> Result<N, string>) {
    tokens.name.Some? ==> parseName(tokens.name.value).Success?
  }

  /** At most one of the three modes is switched on. */
  predicate AtMostOneMode<N, H>(c: LogCommand<N, H>) {
    && !(c.isReset && c.isOverride)
    && !(c.isReset && c.isResetAll)
    && !(c.isOverride && c.isResetAll)
  }

  /** The command with hours parsed from h/, or the hours parser's error. */
  function WithHours<N, H>(studySpot: Option<N>, hours: string, isOverride: bool,
                           parseHours: string -> Result<H, string>): (r: Result<LogCommand<N, H>, ParseError>)
    ensures parseHours(hours).Failure? <==> r.Failure?
    ensures r.Failure? ==> r.error == ParseFailure(parseHours(hours).error)
    ensures r.Success? ==> r.value == LogCommand(studySpot, Some(parseHours(hours).value), false, isOverride, false)
  {
    match parseHours(hours)
    case Failure(e) => Failure(ParseFailure(e))
    case Success(h) => Success(LogCommand(studySpot, Some(h), false, isOverride, false))
  }

  /** The parsed n/ value, when there is one. */
  function StudySpotOf<N>(tokens: ArgumentMultimap, parseName: string -> Result<N, string>): Option<N>
    requires NameParses(tokens, parseName)
  {
    if tokens.name.Some? then Some(parseName(tokens.name.value).value) else None
  }

  /**
   * parse: the format check, then the name, then the flag, then the hours. Whatever it
   * returns has at most one mode, carries hours exactly when it is neither a reset nor
   * a reset all, and names the parsed n/ value exactly when there was one.
   */
  function Parse<N, H>(args: string, tokens: ArgumentMultimap, flags: Flags,
                       parseName: string -> Result<N, string>,
                       parseHours: string -> Result<H, string>): (r: Result<LogCommand<N, H>, ParseError>)
    ensures BadFormat(args, tokens, flags) ==> r == Failure(InvalidCommandFormat)
    ensures r.Success? ==> AtMostOneMode(r.value)
    ensures r.Success? ==> (r.value.hoursStudied.None? <==> r.value.isReset || r.value.isResetAll)
    ensures r.Success? ==> r.value.hoursStudied.Some? ==> tokens.hours.Some?
    ensures r.Success? ==> NameParses(tokens, parseName) && r.value.studySpot == StudySpotOf(tokens, parseName)
  {
    if BadFormat(args, tokens, flags) then Failure(InvalidCommandFormat)
    else
      var isNamePresent := tokens.name.Some?;
      var isHoursPresent := tokens.hours.Some?;
      if isNamePresent && parseName(tokens.name.value).Failure? then
        Failure(ParseFailure(parseName(tokens.name.value).error))
      else
        var studySpot := StudySpotOf(tokens, parseName);
        if FlagIs(tokens, flags.reset) && isNamePresent then
          Success(LogCommand(studySpot, None, true, false, false))
        else if FlagIs(tokens, flags.overriding) && isNamePresent && isHoursPresent then
          WithHours(studySpot, tokens.hours.value, true, parseHours)
        else if FlagIs(tokens, flags.resetAll) then
          Success(LogCommand(studySpot, None, false, false, true))
        else if tokens.flag.Some? then
          Failure(InvalidCommandFormat)
        else if isHoursPresent then
          WithHours(studySpot, tokens.hours.value, false, parseHours)
        else
          Failure(InvalidCommandFormat)
  }

  /** Reset with a name gives a reset command without hours, whatever h/ held. */
  lemma ResetIgnoresHours<N, H>(args: string, tokens: ArgumentMultimap, flags: Flags,
                                parseName: string -> Result<N, string>,
                                parseHours: string -> Result<H, string>)
    requires !BadFormat(args, tokens, flags)
    requires FlagIs(tokens, flags.reset) && tokens.name.Some? && NameParses(tokens, parseName)
    ensures Parse(args, tokens, flags, parseName, parseHours)
      == Success(LogCommand(Some(parseName(tokens.name.value).value), None, true, false, false))
    ensures Parse(args, tokens, flags, parseName, parseHours)
      == Parse(args, tokens.(hours := None), flags, parseName, parseHours)
  {
  }

  /** Reset all gives a reset-all command, with or without a name. */
  lemma ResetAllWithOrWithoutName<N, H>(args: string, tokens: ArgumentMultimap, flags: Flags,
                                        parseName: string -> Result<N, string>,
                                        parseHours: string -> Result<H, string>)
    requires DistinctFlags(flags)
    requires FlagIs(tokens, flags.resetAll) && ContainsText(args, flags.resetAll)
    requires NameParses(tokens, parseName)
    ensures Parse(args, tokens, flags, parseName, parseHours)
      == Success(LogCommand(StudySpotOf(tokens, parseName), None, false, false, true))
  {
  }

  /** The reset-all flag is accepted on its own, with no n/ and whatever preamble, once the text holds it. */
  lemma ResetAllAlone<N, H>(args: string, preamble: string, flags: Flags,
                            parseName: string -> Result<N, string>,
                            parseHours: string -> Result<H, string>)
    requires DistinctFlags(flags)
    requires ContainsText(args, flags.resetAll)
    ensures Parse(args, ArgumentMultimap(preamble, None, None, Some(flags.resetAll)), flags, parseName, parseHours)
      == Success(LogCommand(None, None, false, false, true))
  {
  }

  /** Override with a name and hours gives an override command with the parsed hours. */
  lemma OverrideNeedsNameAndHours<N, H>(args: string, tokens: ArgumentMultimap, flags: Flags,
                                        parseName: string -> Result<N, string>,
                                        parseHours: string -> Result<H, string>)
    requires DistinctFlags(flags) && !BadFormat(args, tokens, flags)
    requires FlagIs(tokens, flags.overriding) && NameParses(tokens, parseName)
    ensures var r := Parse(args, tokens, flags, parseName, parseHours);
      if tokens.name.Some? && tokens.hours.Some? then
        r == WithHours(StudySpotOf(tokens, parseName), tokens.hours.value, true, parseHours)
      else
        r == Failure(InvalidCommandFormat)
  {
  }

  /** Any other flag is a usage error: reset without a name, override missing a field, or an unknown flag. */
  lemma OtherFlagsAreRejected<N, H>(args: string, tokens: ArgumentMultimap, flags: Flags,
                                    parseName: string -> Result<N, string>,
                                    parseHours: string -> Result<H, string>)
    requires tokens.flag.Some? && NameParses(tokens, parseName)
    requires !(FlagIs(tokens, flags.reset) && tokens.name.Some?)
    requires !(FlagIs(tokens, flags.overriding) && tokens.name.Some? && tokens.hours.Some?)
    requires !FlagIs(tokens, flags.resetAll)
    ensures Parse(args, tokens, flags, parseName, parseHours) == Failure(InvalidCommandFormat)
  {
  }

  /** Without a flag, hours give a plain log command and their absence is a usage error. */
  lemma NoFlagNeedsHours<N, H>(args: string, tokens: ArgumentMultimap, flags: Flags,
                               parseName: string -> Result<N, string>,
                               parseHours: string -> Result<H, string>)
    requires tokens.flag.None? && !BadFormat(args, tokens, flags) && NameParses(tokens, parseName)
    ensures var r := Parse(args, tokens, flags, parseName, parseHours);
      if tokens.hours.Some? then
        r == WithHours(StudySpotOf(tokens, parseName), tokens.hours.value, false, parseHours)
      else
        r == Failure(InvalidCommandFormat)
  {
  }

  /** A name the name parser refuses is reported before the flag is looked at, even for reset all. */
  lemma NameErrorComesFirst<N, H>(args: string, tokens: ArgumentMultimap, flags: Flags,
                                  parseName: string -> Result<N, string>,
                                  parseHours: string -> Result<H, string>)
    requires !BadFormat(args, tokens, flags)
    requires tokens.name.Some? && parseName(tokens.name.value).Failure?
    ensures Parse(args, tokens, flags, parseName, parseHours)
      == Failure(ParseFailure(parseName(tokens.name.value).error))
  {
  }

  /**
   * The format check only looks for the reset-all text anywhere in the input, so a
   * plain log command without a name gets through when that text occurs outside the
   * flag, for instance in the preamble.
   */
  lemma NamelessPlainLog<N, H>(args: string, preamble: string, hours: string, flags: Flags,
                               parseName: string -> Result<N, string>,
                               parseHours: string -> Result<H, string>)
    requires ContainsText(args, flags.resetAll) && parseHours(hours).Success?
    ensures Parse(args, ArgumentMultimap(preamble, None, Some(hours), None), flags, parseName, parseHours)
      == Success(LogCommand(None, Some(parseHours(hours).value), false, false, false))
  {
  }
}
