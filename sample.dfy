/**
 * The standard definitions of GetOptTests/TestOptions.cs and the command line of
 * GetOptTests/UnitTests.cs, with a week-day converter standing in for the enum conversion.
 */
module SampleCommandLine {
  import opened Wrappers
  import opened Errors
  import opened Definitions
  import DefinitionLists
  import opened GetOpt
  import opened ScanProperties

  const Verbose: OptionDefinition := OptionDefinition(Some("verbose"), 'v', None, None, None)
  const MaxWorkers: OptionDefinition := OptionDefinition(Some("max-workers"), 'W', Some("uint"), Some(1), None)
  const DebugLevel: OptionDefinition := OptionDefinition(Some("debug-level"), 'd', Some("byte"), Some(0), Some(4))
  const MaxCpuShare: OptionDefinition := OptionDefinition(Some("max-cpu-share"), 'c', Some("double"), Some(0), Some(1))
  /** Bounded from Monday (1) to Friday (5). */
  const WorkDay: OptionDefinition := OptionDefinition(Some("work-day"), 'w', Some("WeekDay"), Some(1), Some(5))
  const ShowMinorErrors: OptionDefinition := OptionDefinition(Some("show-minor-errors"), 'e', Some("bool"), None, None)
  const LogFile: OptionDefinition := OptionDefinition(Some("log-file"), 'l', Some("string"), None, None)
  const FirstName: OptionDefinition := OptionDefinition(Some("first-name"), NoShortName, Some("string"), None, None)

  /** `TestOptions.Standard` without its regex-restricted host name. */
  const Standard: seq<OptionDefinition> := [Verbose, MaxWorkers, DebugLevel, MaxCpuShare, WorkDay, ShowMinorErrors, LogFile, FirstName]

  /** Week-day names as the enum's values, Sunday first; anything else fails to convert. */
  function WeekDayValue(text: string): (r: Option<int>)
    ensures r.Some? ==> 0 <= r.value <= 6
  {
    if text == "Sunday" then Some(0)
    else if text == "Monday" then Some(1)
    else if text == "Tuesday" then Some(2)
    else if text == "Wednesday" then Some(3)
    else if text == "Thursday" then Some(4)
    else if text == "Friday" then Some(5)
    else if text == "Saturday" then Some(6)
    else None
  }

  /** Only the week-day type is given a conversion here. */
  function Convert(typeName: TypeName, text: string): Option<int> {
    if typeName == "WeekDay" then WeekDayValue(text) else None
  }

  /** What the sample needs of a converter: how the week-day names it uses convert. */
  predicate WeekDays(conv: Converter) {
    && conv("WeekDay", "Sunday") == Some(0)
    && conv("WeekDay", "Monday") == Some(1)
    && conv("WeekDay", "Tuesday") == Some(2)
    && conv("WeekDay", "Wednesday") == Some(3)
    && conv("WeekDay", "Friday") == Some(5)
    && conv("WeekDay", "Saturday") == Some(6)
    && conv("WeekDay", "MOnday") == None
  }

  /** The sample converter converts the names as the sample needs. */
  lemma ConvertWeekDays()
    ensures WeekDays(Convert)
  {
  }

  /** Every standard definition is accepted by the constructor, and their names are unique. */
  lemma StandardWellFormed()
    ensures CreateChecked(Some("verbose"), 'v', None, None, None) == Success(Verbose)
    ensures CreateChecked(Some("work-day"), 'w', Some("WeekDay"), Some(1), Some(5)) == Success(WorkDay)
    ensures CreateChecked(Some("first-name"), NoShortName, Some("string"), None, None) == Success(FirstName)
    ensures forall d :: d in Standard ==> WellFormed(d)
    ensures DefinitionLists.Unique(Standard)
  {
  }

  const CommandLine: seq<string> := ["-wFriday", "--work-day=Wednesday", "-vwMonday", "-w", "Tuesday", "Friday",
                                     "-vw", "Tuesday", "--", "-wSaturday", "--work-day=Sunday"]

  const AfterMarker: seq<string> := ["-wSaturday", "--work-day=Sunday"]

  /** What the sample needs of a definitions list: how `w`, `v`, `z` and `work-day` resolve. */
  predicate Lookups(defs: seq<OptionDefinition>) {
    && FindShort(defs, 'w') == Some(WorkDay)
    && FindLong(defs, "work-day") == Some(WorkDay)
    && FindShort(defs, 'v') == Some(Verbose)
    && FindShort(defs, 'z') == None
  }

  /** The standard definitions resolve as the sample needs. */
  lemma StandardLookups()
    ensures Lookups(Standard)
  {
    StandardShortW();
    StandardShortV();
    StandardShortZ();
    StandardLongWorkDay();
  }

  lemma StandardShortW()
    ensures FindShort(Standard, 'w') == Some(WorkDay)
  {
    var matches := DefinitionLists.WithShortName(Standard, 'w');
    DefinitionLists.WithShortNameMembers(Standard, 'w');
    assert Standard[4] == WorkDay && WorkDay in matches;
    assert forall d :: d in Standard && d.shortName == 'w' ==> d == WorkDay;
    assert matches[0] in matches;
  }

  lemma StandardShortV()
    ensures FindShort(Standard, 'v') == Some(Verbose)
  {
    assert Standard[0] == Verbose;
    assert forall d :: d in Standard && d.shortName == 'v' ==> d == Verbose;
  }

  lemma StandardShortZ()
    ensures FindShort(Standard, 'z') == None
  {
    assert forall d :: d in Standard ==> d.shortName != 'z';
  }

  lemma StandardLongWorkDay()
    ensures FindLong(Standard, "work-day") == Some(WorkDay)
  {
    var matches := DefinitionLists.WithLongName(Standard, "work-day");
    DefinitionLists.WithLongNameMembers(Standard, "work-day");
    assert Standard[4] == WorkDay && WorkDay in matches;
    assert forall d :: d in Standard && d.longName == Some("work-day") ==> d == WorkDay;
    assert matches[0] in matches;
  }

  /** `v` inside a cluster is a flag: recorded, and the cluster goes on. */
  lemma ClusterVerboseStep(token: string, j: nat, defs: seq<OptionDefinition>, next: Option<string>, conv: Converter)
    requires 1 <= j < |token| && token[j] == 'v' && Lookups(defs)
    ensures ParseCluster(token, j, defs, next, conv) ==
      PrependCluster([ParsedOption(Verbose, None)], ParseCluster(token, j + 1, defs, next, conv))
  {
  }

  /** A working day converts to itself in either form of the option. */
  lemma DayAccepted(text: string, conv: Converter, day: int)
    requires conv("WeekDay", text) == Some(day) && 1 <= day <= 5
    ensures ToTargetType(text, WorkDay, false, conv) == Success(day)
    ensures ToTargetType(text, WorkDay, true, conv) == Success(day)
  {
  }

  /** A week day outside Monday to Friday is out of range, in either form of the option. */
  lemma DayOutOfRange(text: string, conv: Converter, day: int)
    requires conv("WeekDay", text) == Some(day) && !(1 <= day <= 5)
    ensures ToTargetType(text, WorkDay, false, conv) == Failure(ParseError(OutOfRange, "-w"))
    ensures ToTargetType(text, WorkDay, true, conv) == Failure(ParseError(OutOfRange, "--work-day"))
  {
    assert OptionText(WorkDay, true) == "--work-day";
  }

  /** Text the converter does not take is a type mismatch. */
  lemma DayUnknown(text: string, conv: Converter)
    requires conv("WeekDay", text).None?
    ensures ToTargetType(text, WorkDay, false, conv) == Failure(ParseError(TypeMismatch, "-w"))
  {
  }

  /** `w` with a working day as its text ends the cluster with that day. */
  lemma ClusterWorkDay(token: string, j: nat, defs: seq<OptionDefinition>, next: Option<string>, conv: Converter, text: string, day: int)
    requires 1 <= j < |token| && token[j] == 'w' && Lookups(defs)
    requires if j == |token| - 1 then next == Some(text) else token[j + 1..] == text
    requires conv("WeekDay", text) == Some(day) && 1 <= day <= 5
    ensures ParseCluster(token, j, defs, next, conv) == Success(Cluster([ParsedOption(WorkDay, Some(day))], j == |token| - 1))
  {
    DayAccepted(text, conv, day);
  }

  /** A `--work-day=` token read as the long name, `=`, and the text. */
  lemma WorkDayToken(token: string, text: string)
    requires token == "--work-day=" + text
    ensures token == "--" + "work-day" + "=" + text && StartsWithDoubleDash(token) && token != "--"
  {
  }

  /** A `-w` token read as the option letter and its attached text. */
  lemma AttachedWorkDayToken(token: string, text: string)
    requires token == "-w" + text && |text| > 0
    ensures |token| > 2 && token[0] == '-' && token[1] == 'w' && token[2..] == text
  {
  }

  /** `--work-day=` with a working day. */
  lemma LongWorkDay(token: string, defs: seq<OptionDefinition>, conv: Converter, text: string, day: int)
    requires token == "--work-day=" + text && Lookups(defs)
    requires conv("WeekDay", text) == Some(day) && 1 <= day <= 5
    ensures ParseLongOption(token, defs, conv) == Success(ParsedOption(WorkDay, Some(day)))
  {
    WorkDayToken(token, text);
    LongOptionForms("work-day", text, defs, conv);
    DayAccepted(text, conv, day);
  }

  /** The options the unit test expects, by name. */
  const V: ParsedOption := ParsedOption(Verbose, None)
  const Monday: ParsedOption := ParsedOption(WorkDay, Some(1))
  const Tuesday: ParsedOption := ParsedOption(WorkDay, Some(2))
  const Wednesday: ParsedOption := ParsedOption(WorkDay, Some(3))
  const Friday: ParsedOption := ParsedOption(WorkDay, Some(5))

  /** The working day `day` as the parsed `-w` option. */
  function Day(day: int): ParsedOption {
    ParsedOption(WorkDay, Some(day))
  }

  /** `-w` with a working day in the same token: that day, and the scan goes on after the token. */
  lemma AttachedWorkDayStep(args: seq<string>, defs: seq<OptionDefinition>, conv: Converter, i: nat, day: int)
    requires i < |args| && |args[i]| > 2 && args[i][0] == '-' && args[i][1] == 'w'
    requires conv("WeekDay", args[i][2..]) == Some(day) && 1 <= day <= 5 && Lookups(defs)
    ensures Scan(args, defs, conv, i, false) == Then(Options([Day(day)]), Scan(args, defs, conv, i + 1, false))
  {
    ClusterWorkDay(args[i], 1, defs, NextOf(args, i), conv, args[i][2..], day);
    ScanClusterStep(args, defs, conv, i, Cluster([Day(day)], false));
  }

  /** A lone `-w` followed by a working day: that day, and the scan goes on after both tokens. */
  lemma NextWorkDayStep(args: seq<string>, defs: seq<OptionDefinition>, conv: Converter, i: nat, day: int)
    requires i + 1 < |args| && |args[i]| == 2 && args[i][0] == '-' && args[i][1] == 'w' && !StartsWithDash(args[i + 1])
    requires conv("WeekDay", args[i + 1]) == Some(day) && 1 <= day <= 5 && Lookups(defs)
    ensures Scan(args, defs, conv, i, false) == Then(Options([Day(day)]), Scan(args, defs, conv, i + 2, false))
  {
    ClusterWorkDay(args[i], 1, defs, NextOf(args, i), conv, args[i + 1], day);
    ScanClusterStep(args, defs, conv, i, Cluster([Day(day)], true));
  }

  /** `-vw` with a working day in the same token: verbose, that day, and the scan goes on after the token. */
  lemma VerboseAttachedWorkDayStep(args: seq<string>, defs: seq<OptionDefinition>, conv: Converter, i: nat, day: int)
    requires i < |args| && |args[i]| > 3 && args[i][0] == '-' && args[i][1] == 'v' && args[i][2] == 'w'
    requires conv("WeekDay", args[i][3..]) == Some(day) && 1 <= day <= 5 && Lookups(defs)
    ensures Scan(args, defs, conv, i, false) == Then(Options([V, Day(day)]), Scan(args, defs, conv, i + 1, false))
  {
    ClusterVerboseStep(args[i], 1, defs, NextOf(args, i), conv);
    ClusterWorkDay(args[i], 2, defs, NextOf(args, i), conv, args[i][3..], day);
    assert [V] + [Day(day)] == [V, Day(day)];
    ScanClusterStep(args, defs, conv, i, Cluster([V, Day(day)], false));
  }

  /** A lone `-vw` followed by a working day: verbose, that day, and the scan goes on after both tokens. */
  lemma VerboseNextWorkDayStep(args: seq<string>, defs: seq<OptionDefinition>, conv: Converter, i: nat, day: int)
    requires i + 1 < |args| && |args[i]| == 3 && args[i][0] == '-' && args[i][1] == 'v' && args[i][2] == 'w'
    requires !StartsWithDash(args[i + 1]) && conv("WeekDay", args[i + 1]) == Some(day) && 1 <= day <= 5 && Lookups(defs)
    ensures Scan(args, defs, conv, i, false) == Then(Options([V, Day(day)]), Scan(args, defs, conv, i + 2, false))
  {
    ClusterVerboseStep(args[i], 1, defs, NextOf(args, i), conv);
    ClusterWorkDay(args[i], 2, defs, NextOf(args, i), conv, args[i + 1], day);
    assert [V] + [Day(day)] == [V, Day(day)];
    ScanClusterStep(args, defs, conv, i, Cluster([V, Day(day)], true));
  }

  /** `--work-day=` with a working day: that day, and the scan goes on after the token. */
  lemma LongWorkDayStep(args: seq<string>, defs: seq<OptionDefinition>, conv: Converter, i: nat, text: string, day: int)
    requires i < |args| && args[i] == "--work-day=" + text
    requires conv("WeekDay", text) == Some(day) && 1 <= day <= 5 && Lookups(defs)
    ensures Scan(args, defs, conv, i, false) == Then(Options([Day(day)]), Scan(args, defs, conv, i + 1, false))
  {
    LongWorkDay(args[i], defs, conv, text, day);
    WorkDayToken(args[i], text);
    ScanLongStep(args, defs, conv, i, Day(day));
  }

  /** The tokens of the command line, as the step lemmas read them. */
  predicate ScenarioTokens(args: seq<string>, conv: Converter) {
    && |args| == 11
    && |args[0]| > 2 && args[0][0] == '-' && args[0][1] == 'w' && conv("WeekDay", args[0][2..]) == Some(5)
    && args[1] == "--work-day=" + "Wednesday" && conv("WeekDay", "Wednesday") == Some(3)
    && |args[2]| > 3 && args[2][0] == '-' && args[2][1] == 'v' && args[2][2] == 'w' && conv("WeekDay", args[2][3..]) == Some(1)
    && |args[3]| == 2 && args[3][0] == '-' && args[3][1] == 'w'
    && !StartsWithDash(args[4]) && conv("WeekDay", args[4]) == Some(2)
    && Positional(args[5])
    && |args[6]| == 3 && args[6][0] == '-' && args[6][1] == 'v' && args[6][2] == 'w'
    && !StartsWithDash(args[7]) && conv("WeekDay", args[7]) == Some(2)
    && args[8] == "--" && args[9..] == AfterMarker
  }

  lemma CommandLineTokens(args: seq<string>, conv: Converter)
    requires args == CommandLine && WeekDays(conv)
    ensures ScenarioTokens(args, conv) && args[5] == "Friday"
  {
    assert args[0][2..] == "Friday";
    assert args[2][3..] == "Monday";
  }

  /** From the marker on, every token is a non-option. */
  lemma ScanFromMarker(args: seq<string>, defs: seq<OptionDefinition>, conv: Converter)
    requires 9 <= |args| && args[8] == "--" && args[9..] == AfterMarker
    ensures Scan(args, defs, conv, 8, false) == Success(ParsedArguments([], AfterMarker))
  {
    AfterEndOfOptions(args, defs, conv, 9);
  }

  lemma ComposeTailSteps(t: string, s3: Result<ParsedArguments, ParseError>, s5: Result<ParsedArguments, ParseError>,
                         s6: Result<ParsedArguments, ParseError>, s8: Result<ParsedArguments, ParseError>)
    requires s8 == Success(ParsedArguments([], AfterMarker))
    requires s6 == Then(Options([V, Day(2)]), s8)
    requires s5 == Then(NonOption(t), s6)
    requires s3 == Then(Options([Day(2)]), s5)
    ensures s3 == Success(ParsedArguments([Tuesday, V, Tuesday], [t] + AfterMarker))
  {
    assert [V, Tuesday] + [] == [V, Tuesday];
    assert [] + AfterMarker == AfterMarker;
    assert [] + [V, Tuesday] == [V, Tuesday];
    var rest: seq<string> := [t] + AfterMarker;
    assert [] + rest == rest;
    assert [Tuesday] + [V, Tuesday] == [Tuesday, V, Tuesday];
  }

  lemma ComposeHeadSteps(t: string, s0: Result<ParsedArguments, ParseError>, s1: Result<ParsedArguments, ParseError>,
                         s2: Result<ParsedArguments, ParseError>, s3: Result<ParsedArguments, ParseError>)
    requires s3 == Success(ParsedArguments([Tuesday, V, Tuesday], [t] + AfterMarker))
    requires s2 == Then(Options([V, Day(1)]), s3)
    requires s1 == Then(Options([Day(3)]), s2)
    requires s0 == Then(Options([Day(5)]), s1)
    ensures s0 == Success(ParsedArguments([Friday, Wednesday, V, Monday, Tuesday, V, Tuesday], [t] + AfterMarker))
  {
    var rest: seq<string> := [t] + AfterMarker;
    assert [] + rest == rest;
    assert [V, Monday] + [Tuesday, V, Tuesday] == [V, Monday, Tuesday, V, Tuesday];
    assert [Wednesday] + [V, Monday, Tuesday, V, Tuesday] == [Wednesday, V, Monday, Tuesday, V, Tuesday];
    assert [Friday] + [Wednesday, V, Monday, Tuesday, V, Tuesday] == [Friday, Wednesday, V, Monday, Tuesday, V, Tuesday];
  }

  /** The scan from the fourth token on: `-w Tuesday`, `Friday`, `-vw Tuesday`, then the marker. */
  lemma ScenarioTail(args: seq<string>, defs: seq<OptionDefinition>, conv: Converter)
    requires ScenarioTokens(args, conv) && Lookups(defs)
    ensures Scan(args, defs, conv, 3, false) == Success(ParsedArguments([Tuesday, V, Tuesday], [args[5]] + AfterMarker))
  {
    ScanFromMarker(args, defs, conv);
    VerboseNextWorkDayStep(args, defs, conv, 6, 2);
    ScanPositionalStep(args, defs, conv, 5);
    NextWorkDayStep(args, defs, conv, 3, 2);
    ComposeTailSteps(args[5], Scan(args, defs, conv, 3, false), Scan(args, defs, conv, 5, false),
      Scan(args, defs, conv, 6, false), Scan(args, defs, conv, 8, false));
  }

  /** The scan of the scenario's tokens, one step per token or per option with its argument. */
  lemma ScenarioSteps(args: seq<string>, defs: seq<OptionDefinition>, conv: Converter)
    requires ScenarioTokens(args, conv) && Lookups(defs)
    ensures Parse(args, defs, conv) == Success(ParsedArguments(
      [Friday, Wednesday, V, Monday, Tuesday, V, Tuesday], [args[5]] + AfterMarker))
  {
    ScenarioTail(args, defs, conv);
    VerboseAttachedWorkDayStep(args, defs, conv, 2, 1);
    LongWorkDayStep(args, defs, conv, 1, "Wednesday", 3);
    AttachedWorkDayStep(args, defs, conv, 0, 5);
    ComposeHeadSteps(args[5], Scan(args, defs, conv, 0, false), Scan(args, defs, conv, 1, false),
      Scan(args, defs, conv, 2, false), Scan(args, defs, conv, 3, false));
  }

  /**
   * The scenario of the unit test: seven options in encounter order, the three tokens after
   * `--` as the only non-options, `Tuesday` taken twice as an argument and never a non-option.
   */
  lemma WorkingDay(args: seq<string>, defs: seq<OptionDefinition>, conv: Converter)
    requires args == CommandLine && Lookups(defs) && WeekDays(conv)
    ensures Parse(args, defs, conv) == Success(ParsedArguments(
      [Friday, Wednesday, V, Monday, Tuesday, V, Tuesday], ["Friday", "-wSaturday", "--work-day=Sunday"]))
  {
    CommandLineTokens(args, conv);
    ScenarioSteps(args, defs, conv);
    assert [args[5]] + AfterMarker == ["Friday", "-wSaturday", "--work-day=Sunday"];
  }

  /** The same scenario with the standard definitions and the sample converter themselves. */
  lemma WorkingDayStandard(args: seq<string>)
    requires args == CommandLine
    ensures Parse(args, Standard, Convert) == Success(ParsedArguments(
      [Friday, Wednesday, V, Monday, Tuesday, V, Tuesday], ["Friday", "-wSaturday", "--work-day=Sunday"]))
  {
    StandardLookups();
    ConvertWeekDays();
    WorkingDay(args, Standard, Convert);
  }

  /**
   * The scenario depends on the conversion reading week-day names: with a conversion that
   * does not, the very first token already fails as a type mismatch on `-w`.
   */
  lemma NamesNotConverted(args: seq<string>, defs: seq<OptionDefinition>, conv: Converter)
    requires args == CommandLine && Lookups(defs) && conv("WeekDay", "Friday").None?
    ensures Parse(args, defs, conv) == Failure(ParseError(TypeMismatch, "-w"))
  {
    AttachedWorkDayToken(args[0], "Friday");
    DayUnknown("Friday", conv);
    AttachedWorkDayFails(args, defs, conv, ParseError(TypeMismatch, "-w"));
  }

  /**
   * `-w` at the end of its token followed by nothing, by the marker or by a dash token such
   * as `-1` lacks its argument.
   */
  lemma MissingWorkDay(args: seq<string>, defs: seq<OptionDefinition>, conv: Converter, post: seq<string>)
    requires args == ["-w"] + post && Boundary(post) && Lookups(defs)
    ensures Parse(args, defs, conv) == Failure(ParseError(MustHaveArgument, "-w"))
  {
    MustHaveWhenNextIsDash('w', post, defs, conv);
    assert args == [['-', 'w']] + post;
  }

  /** `--work-day` without `=` lacks its argument, whatever follows: the long form never takes the next token. */
  lemma MissingLongWorkDay(args: seq<string>, defs: seq<OptionDefinition>, conv: Converter, post: seq<string>)
    requires args == ["--work-day"] + post && Lookups(defs)
    ensures Parse(args, defs, conv) == Failure(ParseError(MustHaveArgument, "--work-day"))
  {
    assert args[0] == "--" + "work-day";
    LongOptionForms("work-day", "", defs, conv);
    ScanLongFails(args, defs, conv, 0, ParseError(MustHaveArgument, "--work-day"));
  }

  /** `-w` plus text whose conversion fails: the cluster fails with the conversion's error. */
  lemma AttachedWorkDayCluster(token: string, defs: seq<OptionDefinition>, next: Option<string>, conv: Converter, e: ParseError)
    requires |token| > 2 && token[1] == 'w' && Lookups(defs)
    requires ToTargetType(token[2..], WorkDay, false, conv) == Failure(e)
    ensures ParseCluster(token, 1, defs, next, conv) == Failure(e)
  {
    assert TakeArgument(token, 1, WorkDay, next, conv) == Failure(e);
  }

  /** A first token `-w` plus text whose conversion fails: that failure is the parse's, whatever follows. */
  lemma AttachedWorkDayFails(args: seq<string>, defs: seq<OptionDefinition>, conv: Converter, e: ParseError)
    requires |args| > 0 && |args[0]| > 2 && args[0][0] == '-' && args[0][1] == 'w' && Lookups(defs)
    requires ToTargetType(args[0][2..], WorkDay, false, conv) == Failure(e)
    ensures Parse(args, defs, conv) == Failure(e)
  {
    AttachedWorkDayCluster(args[0], defs, NextOf(args, 0), conv, e);
    ScanClusterFails(args, defs, conv, 0, e);
  }

  /** A first token `-w` and a next token whose conversion fails: that failure is the parse's. */
  lemma NextWorkDayFails(args: seq<string>, defs: seq<OptionDefinition>, conv: Converter, e: ParseError)
    requires |args| >= 2 && |args[0]| == 2 && args[0][0] == '-' && args[0][1] == 'w' && !StartsWithDash(args[1])
    requires ToTargetType(args[1], WorkDay, false, conv) == Failure(e) && Lookups(defs)
    ensures Parse(args, defs, conv) == Failure(e)
  {
    assert TakeArgument(args[0], 1, WorkDay, Some(args[1]), conv) == Failure(e);
    ScanClusterFails(args, defs, conv, 0, e);
  }

  /** `--work-day=` plus text whose conversion fails: the long option fails with the conversion's error. */
  lemma LongWorkDayRejected(token: string, defs: seq<OptionDefinition>, conv: Converter, text: string, e: ParseError)
    requires token == "--work-day=" + text && Lookups(defs)
    requires ToTargetType(text, WorkDay, true, conv) == Failure(e)
    ensures ParseLongOption(token, defs, conv) == Failure(e)
  {
    WorkDayToken(token, text);
    LongOptionForms("work-day", text, defs, conv);
  }

  /** A first token `--work-day=` plus text whose conversion fails: that failure is the parse's. */
  lemma LongWorkDayFails(args: seq<string>, defs: seq<OptionDefinition>, conv: Converter, text: string, e: ParseError)
    requires |args| > 0 && args[0] == "--work-day=" + text && Lookups(defs)
    requires ToTargetType(text, WorkDay, true, conv) == Failure(e)
    ensures Parse(args, defs, conv) == Failure(e)
  {
    LongWorkDayRejected(args[0], defs, conv, text, e);
    WorkDayToken(args[0], text);
    ScanLongFails(args, defs, conv, 0, e);
  }

  /** Saturday is out of the Monday-to-Friday range, in the short form. */
  lemma SaturdayOutOfRangeShort(args: seq<string>, defs: seq<OptionDefinition>, conv: Converter)
    requires args == ["-wSaturday"] && Lookups(defs) && WeekDays(conv)
    ensures Parse(args, defs, conv) == Failure(ParseError(OutOfRange, "-w"))
  {
    AttachedWorkDayToken(args[0], "Saturday");
    DayOutOfRange("Saturday", conv, 6);
    AttachedWorkDayFails(args, defs, conv, ParseError(OutOfRange, "-w"));
  }

  /** Sunday is out of range when `-w` takes it from the next token. */
  lemma SundayOutOfRangeNext(args: seq<string>, defs: seq<OptionDefinition>, conv: Converter)
    requires args == ["-w", "Sunday"] && Lookups(defs) && WeekDays(conv)
    ensures Parse(args, defs, conv) == Failure(ParseError(OutOfRange, "-w"))
  {
    DayOutOfRange("Sunday", conv, 0);
    NextWorkDayFails(args, defs, conv, ParseError(OutOfRange, "-w"));
  }

  /** A name the converter does not know is a type mismatch: the conversion fails before any bound. */
  lemma MisspelledDayShort(args: seq<string>, defs: seq<OptionDefinition>, conv: Converter)
    requires args == ["-wMOnday"] && Lookups(defs) && WeekDays(conv)
    ensures Parse(args, defs, conv) == Failure(ParseError(TypeMismatch, "-w"))
  {
    AttachedWorkDayToken(args[0], "MOnday");
    DayUnknown("MOnday", conv);
    AttachedWorkDayFails(args, defs, conv, ParseError(TypeMismatch, "-w"));
  }

  /** `--work-day=` plus a week day outside Monday to Friday, first on the line: out of range. */
  lemma LongDayOutOfRange(args: seq<string>, defs: seq<OptionDefinition>, conv: Converter, text: string, day: int)
    requires |args| > 0 && args[0] == "--work-day=" + text && Lookups(defs)
    requires conv("WeekDay", text) == Some(day) && !(1 <= day <= 5)
    ensures Parse(args, defs, conv) == Failure(ParseError(OutOfRange, "--work-day"))
  {
    DayOutOfRange(text, conv, day);
    LongWorkDayFails(args, defs, conv, text, ParseError(OutOfRange, "--work-day"));
  }

  /** Sunday is out of the Monday-to-Friday range, in the long form. */
  lemma SundayOutOfRangeLong(args: seq<string>, defs: seq<OptionDefinition>, conv: Converter)
    requires args == ["--work-day=Sunday"] && Lookups(defs) && WeekDays(conv)
    ensures Parse(args, defs, conv) == Failure(ParseError(OutOfRange, "--work-day"))
  {
    LongDayOutOfRange(args, defs, conv, "Sunday", 0);
  }

  /** An undefined letter ends the parse with unknown-option, even after a good option. */
  lemma UnknownLetter(args: seq<string>, defs: seq<OptionDefinition>, conv: Converter)
    requires args == ["-v", "-z"] && Lookups(defs)
    ensures Parse(args, defs, conv) == Failure(ParseError(UnknownOption, "-z"))
  {
    ClusterVerboseStep(args[0], 1, defs, Some("-z"), conv);
    assert ParseCluster(args[0], 2, defs, Some("-z"), conv) == Success(Cluster([], false));
    assert [V] + [] == [V];
    ScanClusterStep(args, defs, conv, 0, Cluster([V], false));
    assert ParseCluster(args[1], 1, defs, None, conv) == Failure(ParseError(UnknownOption, "-z"));
  }

}
