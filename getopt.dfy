/**
 * GetOpt/GetOpt.cs: the single left-to-right scan that sorts command-line tokens into
 * options (a definition and a converted argument) and non-options, together with the
 * parsed-option records of GetOpt/Models/Option.cs and GetOpt/Models/ParsedArguments.cs.
 */
module GetOpt {
  import opened Wrappers
  import opened Errors
  import opened Definitions
  import DefinitionLists

  /**
   * `Convert.ChangeType(text, ArgumentType, culture)`, left abstract: `None` when the
   * conversion throws. Converted values are modelled as integers, ordered as the bounds are.
   */
  type Converter = (TypeName, string) -> Option<int>

  /** The source's `Option`: the definition that matched and its argument (null for a flag). */
  datatype ParsedOption = ParsedOption(definition: OptionDefinition, argument: Option<int>)

  /** `ParsedArguments`: two lists that start empty and are appended to in encounter order. */
  datatype ParsedArguments = ParsedArguments(options: seq<ParsedOption>, nonOptions: seq<string>)

  /** What a parse throws: the kind, and the option as the message names it (`-w`, `--work-day`). */
  datatype ParseError = ParseError(kind: GetOptError, option: string)

  /** The options of one short-option cluster, and whether it took the next token as its argument. */
  datatype Cluster = Cluster(options: seq<ParsedOption>, consumedNext: bool)

  /** `text.Split(new[] { '=' }, 2)`: the name, and what follows the first `=` if there is one. */
  datatype Split = Split(name: string, value: Option<string>)

  predicate StartsWithDoubleDash(s: string) {
    |s| >= 2 && s[0] == '-' && s[1] == '-'
  }

  function Last<T>(s: seq<T>): T
    requires |s| > 0
  {
    s[|s| - 1]
  }

  // ---------------------------------------------------------------------------
  // Lookup
  // ---------------------------------------------------------------------------

  /** The definition with long name `name`: the first match, which is the only one in a unique list. */
  function FindLong(defs: seq<OptionDefinition>, name: string): (r: Option<OptionDefinition>)
    ensures r.Some? ==> r.value in defs && r.value.longName == Some(name)
  {
    var matches := DefinitionLists.WithLongName(defs, name);
    DefinitionLists.WithLongNameMembers(defs, name);
    if matches == [] then None else Some(matches[0])
  }

  /** The definition with short name `c` (never the null char). */
  function FindShort(defs: seq<OptionDefinition>, c: char): (r: Option<OptionDefinition>)
    ensures r.Some? ==> r.value in defs && r.value.shortName == c && c != NoShortName
  {
    var matches := DefinitionLists.WithShortName(defs, c);
    DefinitionLists.WithShortNameMembers(defs, c);
    if matches == [] then None else Some(matches[0])
  }

  /** A lookup finds nothing exactly when no definition carries the name. */
  lemma FindNone(defs: seq<OptionDefinition>, name: string, c: char)
    ensures FindLong(defs, name).None? <==> forall d :: d in defs ==> d.longName != Some(name)
    ensures FindShort(defs, c).None? <==> forall d :: d in defs ==> !(d.shortName != NoShortName && d.shortName == c)
  {
    var long := DefinitionLists.WithLongName(defs, name);
    var short := DefinitionLists.WithShortName(defs, c);
    DefinitionLists.WithLongNameMembers(defs, name);
    DefinitionLists.WithShortNameMembers(defs, c);
    if long != [] {
      assert long[0] in long;
    }
    if short != [] {
      assert short[0] in short;
    }
  }

  /** In a list with unique names the first match is what `SingleOrDefault` returns. */
  lemma FindIsSingleOrDefault(defs: seq<OptionDefinition>, name: string, c: char)
    requires DefinitionLists.Unique(defs)
    ensures DefinitionLists.SingleOrDefault(DefinitionLists.WithLongName(defs, name)) == Success(FindLong(defs, name))
    ensures DefinitionLists.SingleOrDefault(DefinitionLists.WithShortName(defs, c)) == Success(FindShort(defs, c))
  {
    DefinitionLists.AtMostOneMatch(defs, name, c);
  }

  // ---------------------------------------------------------------------------
  // ToTargetType
  // ---------------------------------------------------------------------------

  /** The inclusive range of the bounds that are set. */
  predicate InRange(v: int, minimum: Option<int>, maximum: Option<int>) {
    (minimum.None? || minimum.value <= v) && (maximum.None? || v <= maximum.value)
  }

  /** How the error message names the option: `--long` when given in long form, `-c` otherwise. */
  function OptionText(d: OptionDefinition, isLongOption: bool): string {
    if isLongOption then "--" + d.longName.GetOr("") else ['-', d.shortName]
  }

  /**
   * `ToTargetType`: convert, then apply the bounds. A failed conversion is reported before
   * any bound is looked at; an accepted value is returned unchanged.
   */
  function ToTargetType(text: string, d: OptionDefinition, isLongOption: bool, conv: Converter): (r: Result<int, ParseError>)
    requires d.HasArgument()
    ensures conv(d.argumentType.value, text).None? ==>
      r == Failure(ParseError(TypeMismatch, OptionText(d, isLongOption)))
    ensures conv(d.argumentType.value, text).Some? ==>
      var v := conv(d.argumentType.value, text).value;
      (r.Success? <==> InRange(v, d.minimum, d.maximum)) &&
      (r.Success? ==> r.value == v) &&
      (r.Failure? ==> r.error == ParseError(OutOfRange, OptionText(d, isLongOption)))
  {
    var errorName := OptionText(d, isLongOption);
    match conv(d.argumentType.value, text)
    case None => Failure(ParseError(TypeMismatch, errorName))
    case Some(argument) =>
      if d.minimum.Some? && d.maximum.None? && argument < d.minimum.value then
        Failure(ParseError(OutOfRange, errorName))
      else if d.minimum.None? && d.maximum.Some? && argument > d.maximum.value then
        Failure(ParseError(OutOfRange, errorName))
      else if d.minimum.Some? && d.maximum.Some? && (argument > d.maximum.value || argument < d.minimum.value) then
        Failure(ParseError(OutOfRange, errorName))
      else
        Success(argument)
  }

  /** Both bounds are inclusive: the bounds themselves pass, one past either fails. */
  lemma BoundsInclusive(d: OptionDefinition, isLongOption: bool, conv: Converter, text: string)
    requires d.HasArgument() && d.minimum.Some? && d.maximum.Some? && d.minimum.value <= d.maximum.value
    requires conv(d.argumentType.value, text).Some?
    ensures var v := conv(d.argumentType.value, text).value;
      (v == d.minimum.value || v == d.maximum.value ==> ToTargetType(text, d, isLongOption, conv) == Success(v)) &&
      (v == d.minimum.value - 1 || v == d.maximum.value + 1 ==>
        ToTargetType(text, d, isLongOption, conv) == Failure(ParseError(OutOfRange, OptionText(d, isLongOption))))
  {
  }

  // ---------------------------------------------------------------------------
  // ParseLongOption
  // ---------------------------------------------------------------------------

  /** The position of the first `=` in `s`. */
  function FirstEquals(s: string): (r: Option<nat>)
    ensures r.Some? ==> r.value < |s| && s[r.value] == '=' && '=' !in s[..r.value]
    ensures r.None? ==> '=' !in s
  {
    if s == [] then None
    else if s[0] == '=' then Some(0)
    else
      match FirstEquals(s[1..])
      case None => None
      case Some(k) =>
        assert s[..k + 1] == [s[0]] + s[1..][..k];
        Some(k + 1)
  }

  /** Split at the first `=`: the name never contains `=`, and name `=` value gives back the text. */
  function SplitAtEquals(s: string): (r: Split)
    ensures r.value.None? ==> r.name == s && '=' !in s
    ensures r.value.Some? ==> s == r.name + "=" + r.value.value && '=' !in r.name
  {
    match FirstEquals(s)
    case None => Split(s, None)
    case Some(k) =>
      assert s == s[..k] + "=" + s[k + 1..];
      Split(s[..k], Some(s[k + 1..]))
  }

  /** The split is the only one whose name holds no `=`. */
  lemma SplitAtEqualsUnique(name: string, value: string)
    requires '=' !in name
    ensures SplitAtEquals(name + "=" + value) == Split(name, Some(value))
    ensures SplitAtEquals(name) == Split(name, None)
  {
    var s := name + "=" + value;
    var r := SplitAtEquals(s);
    assert s[|name|] == '=';
    assert r.value.Some?;
    assert s[..|name|] == name;
  }

  /**
   * `ParseLongOption`: the name is the text after `--` up to the first `=`; what follows
   * that `=` is the raw argument. The long form never looks at the next token.
   */
  function ParseLongOption(argument: string, defs: seq<OptionDefinition>, conv: Converter): Result<ParsedOption, ParseError>
    requires StartsWithDoubleDash(argument)
  {
    var split := SplitAtEquals(argument[2..]);
    var found := FindLong(defs, split.name);
    if found.None? then Failure(ParseError(UnknownOption, "--" + split.name))
    else
      var d := found.value;
      if split.value.None? && d.HasArgument() then Failure(ParseError(MustHaveArgument, "--" + split.name))
      else if split.value.Some? && !d.HasArgument() then Failure(ParseError(MustNotHaveArgument, "--" + split.name))
      else if split.value.Some? then
        var v :- ToTargetType(split.value.value, d, true, conv);
        Success(ParsedOption(d, Some(v)))
      else
        Success(ParsedOption(d, None))
  }

  /**
   * An unknown name fails with unknown-option; a success is for the definition with that
   * long name, and carries an argument exactly when the token has `=` and the definition
   * takes one.
   */
  lemma LongOptionOutcome(argument: string, defs: seq<OptionDefinition>, conv: Converter)
    requires StartsWithDoubleDash(argument)
    ensures var split := SplitAtEquals(argument[2..]);
      var r := ParseLongOption(argument, defs, conv);
      && (FindLong(defs, split.name).None? ==> r == Failure(ParseError(UnknownOption, "--" + split.name)))
      && (r.Success? ==> r.value.definition in defs && r.value.definition.longName == Some(split.name))
      && (r.Success? ==> (r.value.definition.HasArgument() <==> split.value.Some?))
      && (r.Success? ==> (r.value.argument.Some? <==> split.value.Some?))
      && (r.Failure? ==> r.error.kind in {UnknownOption, MustHaveArgument, MustNotHaveArgument, TypeMismatch, OutOfRange})
  {
  }

  /** The four outcomes of `--name` and `--name=value` for a known name. */
  lemma LongOptionForms(name: string, value: string, defs: seq<OptionDefinition>, conv: Converter)
    requires '=' !in name && FindLong(defs, name).Some?
    ensures var d := FindLong(defs, name).value;
      && (d.HasArgument() ==>
           ParseLongOption("--" + name, defs, conv) == Failure(ParseError(MustHaveArgument, "--" + name)))
      && (!d.HasArgument() ==>
           ParseLongOption("--" + name, defs, conv) == Success(ParsedOption(d, None)))
      && (!d.HasArgument() ==>
           ParseLongOption("--" + name + "=" + value, defs, conv) == Failure(ParseError(MustNotHaveArgument, "--" + name)))
      && (d.HasArgument() ==>
           ParseLongOption("--" + name + "=" + value, defs, conv) ==
             match ToTargetType(value, d, true, conv)
             case Success(v) => Success(ParsedOption(d, Some(v)))
             case Failure(e) => Failure(e))
  {
    SplitAtEqualsUnique(name, value);
    assert ("--" + name)[2..] == name;
    assert ("--" + name + "=" + value)[2..] == name + "=" + value;
  }

  // ---------------------------------------------------------------------------
  // ParseShortOption
  // ---------------------------------------------------------------------------

  /**
   * An argument-taking short option at position `j`: the rest of the token is its text when
   * there is any; at the token's last character the next token is, when it is usable.
   */
  function TakeArgument(argument: string, j: nat, d: OptionDefinition, next: Option<string>, conv: Converter): (r: Result<Cluster, ParseError>)
    requires 1 <= j < |argument| && d.HasArgument()
    ensures r.Success? && r.value.consumedNext ==> next.Some?
  {
    var isLast := |argument| - j == 1;
    if isLast && next.None? then Failure(ParseError(MustHaveArgument, ['-', argument[j]]))
    else
      var raw := if isLast then next.value else argument[j + 1..];
      match ToTargetType(raw, d, false, conv)
      case Failure(e) => Failure(e)
      case Success(v) => Success(Cluster([ParsedOption(d, Some(v))], isLast))
  }

  /**
   * One option for `d`, whose argument is the converted rest of the token or, at the
   * token's last character, the converted next token; the only errors are a missing
   * argument and the conversion's own.
   */
  lemma TakeArgumentOutcome(argument: string, j: nat, d: OptionDefinition, next: Option<string>, conv: Converter)
    requires 1 <= j < |argument| && d.HasArgument()
    ensures var r := TakeArgument(argument, j, d, next, conv);
      && (r.Success? ==> |r.value.options| == 1 && r.value.options[0].definition == d)
      && (r.Success? ==> r.value.consumedNext == (j == |argument| - 1))
      && (r.Success? && r.value.consumedNext ==>
           r.value.options[0].argument.Some? && ToTargetType(next.value, d, false, conv) == Success(r.value.options[0].argument.value))
      && (r.Success? && !r.value.consumedNext ==>
           r.value.options[0].argument.Some? && ToTargetType(argument[j + 1..], d, false, conv) == Success(r.value.options[0].argument.value))
      && (j == |argument| - 1 && next.None? ==> r == Failure(ParseError(MustHaveArgument, ['-', argument[j]])))
      && (r.Failure? ==> r.error.kind in {MustHaveArgument, TypeMismatch, OutOfRange})
  {
  }

  /**
   * The cluster `argument` read from position `j` on, character by character: a flag is
   * recorded and scanning goes on; the first argument-taking character takes its argument
   * and ends the cluster.
   */
  function ParseCluster(argument: string, j: nat, defs: seq<OptionDefinition>, next: Option<string>, conv: Converter): (r: Result<Cluster, ParseError>)
    requires 1 <= j <= |argument|
    ensures r.Success? && r.value.consumedNext ==> next.Some?
    decreases |argument| - j
  {
    if j == |argument| then Success(Cluster([], false))
    else
      match FindShort(defs, argument[j])
      case None => Failure(ParseError(UnknownOption, ['-', argument[j]]))
      case Some(d) =>
        if d.HasArgument() then TakeArgument(argument, j, d, next, conv)
        else
          match ParseCluster(argument, j + 1, defs, next, conv)
          case Failure(e) => Failure(e)
          case Success(rest) => Success(Cluster([ParsedOption(d, None)] + rest.options, rest.consumedNext))
  }

  /** One step of a successful cluster: the character's definition, and the rest of the cluster after a flag. */
  lemma ClusterStep(argument: string, j: nat, defs: seq<OptionDefinition>, next: Option<string>, conv: Converter, c: Cluster)
      returns (d: OptionDefinition, rest: Cluster)
    requires 1 <= j < |argument|
    requires ParseCluster(argument, j, defs, next, conv) == Success(c)
    ensures FindShort(defs, argument[j]) == Some(d)
    ensures d.HasArgument() ==> TakeArgument(argument, j, d, next, conv) == Success(c)
    ensures !d.HasArgument() ==>
      && ParseCluster(argument, j + 1, defs, next, conv) == Success(rest)
      && c.options == [ParsedOption(d, None)] + rest.options
      && c.consumedNext == rest.consumedNext
  {
    d := FindShort(defs, argument[j]).value;
    if d.HasArgument() {
      rest := c;
    } else {
      rest := ParseCluster(argument, j + 1, defs, next, conv).value;
    }
  }

  /** The characters of `argument` from `j` up to `k` are all defined flags. */
  predicate FlagsBetween(argument: string, j: nat, k: nat, defs: seq<OptionDefinition>)
    requires k <= |argument|
  {
    forall m :: j <= m < k ==> IsFlagAt(argument, m, defs)
  }

  /** Character `m` of `argument` is a defined option that takes no argument. */
  predicate IsFlagAt(argument: string, m: nat, defs: seq<OptionDefinition>)
    requires m < |argument|
  {
    FindShort(defs, argument[m]).Some? && !FindShort(defs, argument[m]).value.HasArgument()
  }

  /** A failure after any run of flags is the cluster's failure. */
  lemma {:induction false} FlagsThenFailure(argument: string, j: nat, k: nat, defs: seq<OptionDefinition>, next: Option<string>, conv: Converter, e: ParseError)
    requires 1 <= j <= k <= |argument| && FlagsBetween(argument, j, k, defs)
    requires ParseCluster(argument, k, defs, next, conv) == Failure(e)
    ensures ParseCluster(argument, j, defs, next, conv) == Failure(e)
    decreases k - j
  {
    if j < k {
      FlagsBetweenInit(argument, j, k, defs);
      FlagsThenFailure(argument, j, k - 1, defs, next, conv, ParseCluster(argument, k - 1, defs, next, conv).error);
    }
  }

  /** A run of flags ends with a flag, after a shorter run. */
  lemma FlagsBetweenInit(argument: string, j: nat, k: nat, defs: seq<OptionDefinition>)
    requires j < k <= |argument| && FlagsBetween(argument, j, k, defs)
    ensures IsFlagAt(argument, k - 1, defs) && FlagsBetween(argument, j, k - 1, defs)
  {
  }

  /**
   * After defined flags, the first character that is not one decides the cluster's error:
   * an undefined character is an unknown option, and an argument-taking one fails exactly
   * as taking its argument fails, in particular as must-have when it ends the token and no
   * next token is offered.
   */
  lemma ClusterFailsAt(argument: string, j: nat, k: nat, defs: seq<OptionDefinition>, next: Option<string>, conv: Converter)
    requires 1 <= j <= k < |argument| && FlagsBetween(argument, j, k, defs)
    ensures FindShort(defs, argument[k]).None? ==>
      ParseCluster(argument, j, defs, next, conv) == Failure(ParseError(UnknownOption, ['-', argument[k]]))
    ensures (FindShort(defs, argument[k]).Some? && FindShort(defs, argument[k]).value.HasArgument() &&
             TakeArgument(argument, k, FindShort(defs, argument[k]).value, next, conv).Failure?) ==>
      ParseCluster(argument, j, defs, next, conv) == TakeArgument(argument, k, FindShort(defs, argument[k]).value, next, conv)
    ensures (FindShort(defs, argument[k]).Some? && FindShort(defs, argument[k]).value.HasArgument() &&
             k == |argument| - 1 && next.None?) ==>
      ParseCluster(argument, j, defs, next, conv) == Failure(ParseError(MustHaveArgument, ['-', argument[k]]))
  {
    var o := FindShort(defs, argument[k]);
    if o.None? {
      FlagsThenFailure(argument, j, k, defs, next, conv, ParseError(UnknownOption, ['-', argument[k]]));
    } else if o.value.HasArgument() {
      TakeArgumentOutcome(argument, k, o.value, next, conv);
      assert ParseCluster(argument, k, defs, next, conv) == TakeArgument(argument, k, o.value, next, conv);
      if TakeArgument(argument, k, o.value, next, conv).Failure? {
        FlagsThenFailure(argument, j, k, defs, next, conv, TakeArgument(argument, k, o.value, next, conv).error);
      }
    }
  }

  /** Flags from `j + 1` to `k` after a flag at `j` are flags from `j` to `k`. */
  lemma FlagsBetweenCons(argument: string, j: nat, k: nat, defs: seq<OptionDefinition>)
    requires j < k <= |argument| && IsFlagAt(argument, j, defs) && FlagsBetween(argument, j + 1, k, defs)
    ensures FlagsBetween(argument, j, k, defs)
  {
  }

  /**
   * Every cluster error has that cause: defined flags up to some character `k`, which is
   * either undefined or takes an argument that cannot be taken.
   */
  lemma {:induction false} ClusterFailureCause(argument: string, j: nat, defs: seq<OptionDefinition>, next: Option<string>, conv: Converter, e: ParseError)
      returns (k: nat)
    requires 1 <= j <= |argument|
    requires ParseCluster(argument, j, defs, next, conv) == Failure(e)
    ensures j <= k < |argument| && FlagsBetween(argument, j, k, defs)
    ensures FindShort(defs, argument[k]).None? ==> e == ParseError(UnknownOption, ['-', argument[k]])
    ensures FindShort(defs, argument[k]).Some? ==>
      FindShort(defs, argument[k]).value.HasArgument() &&
      TakeArgument(argument, k, FindShort(defs, argument[k]).value, next, conv) == Failure(e)
    decreases |argument| - j
  {
    if IsFlagAt(argument, j, defs) {
      assert ParseCluster(argument, j + 1, defs, next, conv) == Failure(e);
      k := ClusterFailureCause(argument, j + 1, defs, next, conv, e);
      FlagsBetweenCons(argument, j, k, defs);
    } else {
      k := j;
    }
  }

  /** Options naming, in order, the characters of `argument` from position `j` on. */
  predicate ShortNamesAt(options: seq<ParsedOption>, argument: string, j: nat) {
    j + |options| <= |argument| &&
    forall k :: 0 <= k < |options| ==> options[k].definition.shortName == argument[j + k]
  }

  lemma ShortNamesCons(o: ParsedOption, rest: seq<ParsedOption>, argument: string, j: nat)
    requires j < |argument| && o.definition.shortName == argument[j] && ShortNamesAt(rest, argument, j + 1)
    ensures ShortNamesAt([o] + rest, argument, j)
  {
    var all := [o] + rest;
    forall k | 1 <= k < |all|
      ensures all[k].definition.shortName == argument[j + k]
    {
      assert all[k] == rest[k - 1];
    }
  }

  /** One option per character, for the definition of that character, never past the token's end. */
  lemma {:induction false} ClusterNames(argument: string, j: nat, defs: seq<OptionDefinition>, next: Option<string>, conv: Converter, c: Cluster)
    requires 1 <= j <= |argument|
    requires ParseCluster(argument, j, defs, next, conv) == Success(c)
    ensures ShortNamesAt(c.options, argument, j)
    decreases |argument| - j
  {
    if j < |argument| {
      var d, rest := ClusterStep(argument, j, defs, next, conv, c);
      if !d.HasArgument() {
        ClusterNames(argument, j + 1, defs, next, conv, rest);
        ShortNamesCons(ParsedOption(d, None), rest.options, argument, j);
      } else {
        TakeArgumentOutcome(argument, j, d, next, conv);
      }
    }
  }

  /** Every option but the last is a flag given without argument. */
  predicate FlagsBeforeLast(options: seq<ParsedOption>) {
    forall k :: 0 <= k < |options| - 1 ==> !options[k].definition.HasArgument() && options[k].argument.None?
  }

  lemma FlagsCons(o: ParsedOption, rest: seq<ParsedOption>)
    requires !o.definition.HasArgument() && o.argument.None? && FlagsBeforeLast(rest)
    ensures FlagsBeforeLast([o] + rest)
    ensures |rest| > 0 ==> Last([o] + rest) == Last(rest)
  {
    var all := [o] + rest;
    forall k | 1 <= k < |all| - 1
      ensures !all[k].definition.HasArgument() && all[k].argument.None?
    {
      assert all[k] == rest[k - 1];
    }
  }

  /**
   * Every option but the last is a flag without argument; the cluster stops before the
   * token's end only at an argument-taking character; the next token is taken only by the
   * token's last character.
   */
  lemma {:induction false} ClusterStops(argument: string, j: nat, defs: seq<OptionDefinition>, next: Option<string>, conv: Converter, c: Cluster)
    requires 1 <= j <= |argument|
    requires ParseCluster(argument, j, defs, next, conv) == Success(c)
    ensures FlagsBeforeLast(c.options)
    ensures |c.options| < |argument| - j ==> |c.options| > 0 && Last(c.options).definition.HasArgument() && !c.consumedNext
    ensures c.consumedNext ==> |c.options| == |argument| - j && Last(c.options).definition.HasArgument()
    decreases |argument| - j
  {
    if j < |argument| {
      var d, rest := ClusterStep(argument, j, defs, next, conv, c);
      if !d.HasArgument() {
        ClusterStops(argument, j + 1, defs, next, conv, rest);
        FlagsCons(ParsedOption(d, None), rest.options);
      } else {
        TakeArgumentOutcome(argument, j, d, next, conv);
        assert Last(c.options) == c.options[0];
      }
    }
  }

  /**
   * The argument of the last option of `c`, read from position `j` on: none for a flag;
   * for an argument-taking option, the converted rest of the token, or the converted next
   * token when the cluster took that.
   */
  predicate LastArgumentFits(argument: string, j: nat, next: Option<string>, conv: Converter, c: Cluster)
    requires |c.options| > 0
  {
    && j + |c.options| <= |argument|
    && (Last(c.options).definition.HasArgument() <==> Last(c.options).argument.Some?)
    && (Last(c.options).definition.HasArgument() && !c.consumedNext ==>
         j + |c.options| < |argument| &&
         ToTargetType(argument[j + |c.options|..], Last(c.options).definition, false, conv) == Success(Last(c.options).argument.value))
    && (Last(c.options).definition.HasArgument() && c.consumedNext ==>
         next.Some? && ToTargetType(next.value, Last(c.options).definition, false, conv) == Success(Last(c.options).argument.value))
  }

  /** A flag in front of a cluster keeps its last argument where it was. */
  lemma LastArgumentAfterFlag(argument: string, j: nat, next: Option<string>, conv: Converter, d: OptionDefinition, rest: Cluster, c: Cluster)
    requires |rest.options| > 0 && LastArgumentFits(argument, j + 1, next, conv, rest)
    requires c == Cluster([ParsedOption(d, None)] + rest.options, rest.consumedNext)
    ensures LastArgumentFits(argument, j, next, conv, c)
  {
    assert Last(c.options) == Last(rest.options);
  }

  /** The argument of the cluster's last option is where the cluster found it. */
  lemma {:induction false} ClusterArgument(argument: string, j: nat, defs: seq<OptionDefinition>, next: Option<string>, conv: Converter, c: Cluster)
    requires 1 <= j <= |argument|
    requires ParseCluster(argument, j, defs, next, conv) == Success(c)
    requires |c.options| > 0
    ensures LastArgumentFits(argument, j, next, conv, c)
    decreases |argument| - j
  {
    var d, rest := ClusterStep(argument, j, defs, next, conv, c);
    if !d.HasArgument() {
      if |rest.options| > 0 {
        ClusterArgument(argument, j + 1, defs, next, conv, rest);
        LastArgumentAfterFlag(argument, j, next, conv, d, rest, c);
      }
    } else {
      TakeArgumentOutcome(argument, j, d, next, conv);
    }
  }

  /** Every option of a cluster is for one of the given definitions. */
  lemma {:induction false} ClusterDefinitions(argument: string, j: nat, defs: seq<OptionDefinition>, next: Option<string>, conv: Converter, c: Cluster)
    requires 1 <= j <= |argument|
    requires ParseCluster(argument, j, defs, next, conv) == Success(c)
    ensures forall o :: o in c.options ==> o.definition in defs
    decreases |argument| - j
  {
    if j < |argument| {
      var d, rest := ClusterStep(argument, j, defs, next, conv, c);
      if !d.HasArgument() {
        ClusterDefinitions(argument, j + 1, defs, next, conv, rest);
      } else {
        TakeArgumentOutcome(argument, j, d, next, conv);
        assert c.options == [c.options[0]];
      }
    }
  }

  /** `options` in front of whatever the rest of the cluster gives. */
  function PrependCluster(options: seq<ParsedOption>, rest: Result<Cluster, ParseError>): Result<Cluster, ParseError> {
    match rest
    case Failure(e) => Failure(e)
    case Success(c) => Success(Cluster(options + c.options, c.consumedNext))
  }

  lemma PrependNothing(rest: Result<Cluster, ParseError>)
    ensures PrependCluster([], rest) == rest
  {
    match rest
    case Failure(_) =>
    case Success(c) => assert [] + c.options == c.options;
  }

  lemma PrependStep(options: seq<ParsedOption>, o: ParsedOption, rest: Result<Cluster, ParseError>)
    ensures PrependCluster(options, PrependCluster([o], rest)) == PrependCluster(options + [o], rest)
  {
    match rest
    case Failure(_) =>
    case Success(c) => assert options + ([o] + c.options) == (options + [o]) + c.options;
  }

  /** `ParseShortOption`: the loop over the cluster's characters. */
  method ParseShortOption(argument: string, defs: seq<OptionDefinition>, next: Option<string>, conv: Converter)
    returns (r: Result<Cluster, ParseError>)
    requires |argument| >= 1
    ensures r == ParseCluster(argument, 1, defs, next, conv)
  {
    var options: seq<ParsedOption> := [];
    var j := 1;
    PrependNothing(ParseCluster(argument, 1, defs, next, conv));
    while j < |argument|
      invariant 1 <= j <= |argument|
      invariant ParseCluster(argument, 1, defs, next, conv) == PrependCluster(options, ParseCluster(argument, j, defs, next, conv))
    {
      var found := FindShort(defs, argument[j]);
      if found.None? {
        return Failure(ParseError(UnknownOption, ['-', argument[j]]));
      }
      var d := found.value;
      if d.HasArgument() && |argument| - j == 1 && next.None? {
        return Failure(ParseError(MustHaveArgument, ['-', argument[j]]));
      }
      if d.HasArgument() {
        var isArgumentOnNextString := |argument| - j == 1;
        var converted := ToTargetType(if isArgumentOnNextString then next.value else argument[j + 1..], d, false, conv);
        if converted.Failure? {
          return Failure(converted.error);
        }
        assert ParseCluster(argument, j, defs, next, conv) == Success(Cluster([ParsedOption(d, Some(converted.value))], isArgumentOnNextString));
        options := options + [ParsedOption(d, Some(converted.value))];
        return Success(Cluster(options, isArgumentOnNextString));
      }
      PrependStep(options, ParsedOption(d, None), ParseCluster(argument, j + 1, defs, next, conv));
      options := options + [ParsedOption(d, None)];
      j := j + 1;
    }
    assert options + [] == options;
    return Success(Cluster(options, false));
  }

  // ---------------------------------------------------------------------------
  // ArgumentList
  // ---------------------------------------------------------------------------

  /** The next token when it exists and does not start with `-`; otherwise null. */
  function NextOf(args: seq<string>, i: nat): (r: Option<string>)
    requires i < |args|
    ensures r.Some? ==> i + 1 < |args| && r.value == args[i + 1] && !StartsWithDash(args[i + 1])
    ensures r.None? <==> (i + 1 == |args| || StartsWithDash(args[i + 1]))
  {
    if i < |args| - 1 && !StartsWithDash(args[i + 1]) then Some(args[i + 1]) else None
  }

  /** Everything of `first` followed by everything of `second`; the first error wins. */
  function Then(first: Result<ParsedArguments, ParseError>, second: Result<ParsedArguments, ParseError>): Result<ParsedArguments, ParseError> {
    match first
    case Failure(e) => Failure(e)
    case Success(a) =>
      match second
      case Failure(e) => Failure(e)
      case Success(b) => Success(ParsedArguments(a.options + b.options, a.nonOptions + b.nonOptions))
  }

  function NonOption(argument: string): Result<ParsedArguments, ParseError> {
    Success(ParsedArguments([], [argument]))
  }

  function Options(options: seq<ParsedOption>): Result<ParsedArguments, ParseError> {
    Success(ParsedArguments(options, []))
  }

  /** The scan of `args` from position `i`, with the end-of-options flag `noMoreOptions`. */
  function Scan(args: seq<string>, defs: seq<OptionDefinition>, conv: Converter, i: nat, noMoreOptions: bool): (r: Result<ParsedArguments, ParseError>)
    requires i <= |args|
    decreases |args| - i
  {
    if i == |args| then Success(ParsedArguments([], []))
    else
      var argument := args[i];
      if noMoreOptions then Then(NonOption(argument), Scan(args, defs, conv, i + 1, true))
      else if argument == "--" then Scan(args, defs, conv, i + 1, true)
      else if StartsWithDoubleDash(argument) then
        var option :- ParseLongOption(argument, defs, conv);
        Then(Options([option]), Scan(args, defs, conv, i + 1, false))
      else if StartsWithDash(argument) && |argument| > 1 then
        var cluster :- ParseCluster(argument, 1, defs, NextOf(args, i), conv);
        Then(Options(cluster.options), Scan(args, defs, conv, if cluster.consumedNext then i + 2 else i + 1, false))
      else Then(NonOption(argument), Scan(args, defs, conv, i + 1, false))
  }

  /** What `ArgumentList` computes: the scan of the whole list, options not yet terminated. */
  function Parse(args: seq<string>, defs: seq<OptionDefinition>, conv: Converter): Result<ParsedArguments, ParseError> {
    Scan(args, defs, conv, 0, false)
  }

  lemma ThenAssociative(a: Result<ParsedArguments, ParseError>, b: Result<ParsedArguments, ParseError>, c: Result<ParsedArguments, ParseError>)
    ensures Then(a, Then(b, c)) == Then(Then(a, b), c)
  {
    match a
    case Failure(_) =>
    case Success(x) =>
      match b
      case Failure(_) =>
      case Success(y) =>
        match c
        case Failure(_) =>
        case Success(z) =>
          assert x.options + (y.options + z.options) == (x.options + y.options) + z.options;
          assert x.nonOptions + (y.nonOptions + z.nonOptions) == (x.nonOptions + y.nonOptions) + z.nonOptions;
  }

  lemma ThenEmpty(a: Result<ParsedArguments, ParseError>)
    ensures Then(Success(ParsedArguments([], [])), a) == a
    ensures Then(a, Success(ParsedArguments([], []))) == a
  {
    match a
    case Failure(_) =>
    case Success(x) =>
      assert x.options + [] == x.options && x.nonOptions + [] == x.nonOptions;
      assert [] + x.options == x.options && [] + x.nonOptions == x.nonOptions;
  }

  /**
   * `ArgumentList`: one pass over the tokens with an index that a short option advances
   * when it takes the next token as its argument. Names must be unique, as
   * `SingleOrDefault` demands of the definitions.
   */
  method ArgumentList(arguments: seq<string>, defs: seq<OptionDefinition>, conv: Converter)
    returns (r: Result<ParsedArguments, ParseError>)
    requires DefinitionLists.Unique(defs)
    ensures r == Parse(arguments, defs, conv)
  {
    var options: seq<ParsedOption> := [];
    var nonOptions: seq<string> := [];
    var noMoreOptions := false;
    var i := 0;
    ThenEmpty(Scan(arguments, defs, conv, 0, false));
    while i < |arguments|
      invariant 0 <= i <= |arguments|
      invariant Parse(arguments, defs, conv) ==
        Then(Success(ParsedArguments(options, nonOptions)), Scan(arguments, defs, conv, i, noMoreOptions))
    {
      var argument := arguments[i];
      var next := if i < |arguments| - 1 && !StartsWithDash(arguments[i + 1]) then Some(arguments[i + 1]) else None;
      var acc := Success(ParsedArguments(options, nonOptions));
      assert next == NextOf(arguments, i);
      if noMoreOptions {
        ThenAssociative(acc, NonOption(argument), Scan(arguments, defs, conv, i + 1, true));
        assert options + [] == options;
        nonOptions := nonOptions + [argument];
      } else if argument == "--" {
        noMoreOptions := true;
      } else if StartsWithDoubleDash(argument) {
        var option := ParseLongOption(argument, defs, conv);
        if option.Failure? {
          return Failure(option.error);
        }
        assert Scan(arguments, defs, conv, i, false) == Then(Options([option.value]), Scan(arguments, defs, conv, i + 1, false));
        ThenAssociative(acc, Options([option.value]), Scan(arguments, defs, conv, i + 1, false));
        assert nonOptions + [] == nonOptions;
        options := options + [option.value];
      } else if StartsWithDash(argument) && |argument| > 1 {
        var cluster := ParseShortOption(argument, defs, next, conv);
        if cluster.Failure? {
          return Failure(cluster.error);
        }
        var resume := if cluster.value.consumedNext then i + 2 else i + 1;
        assert resume <= |arguments|;
        assert Scan(arguments, defs, conv, i, false) == Then(Options(cluster.value.options), Scan(arguments, defs, conv, resume, false));
        ThenAssociative(acc, Options(cluster.value.options), Scan(arguments, defs, conv, resume, false));
        assert nonOptions + [] == nonOptions;
        options := options + cluster.value.options;
        if cluster.value.consumedNext {
          i := i + 1;
        }
      } else {
        ThenAssociative(acc, NonOption(argument), Scan(arguments, defs, conv, i + 1, false));
        assert options + [] == options;
        nonOptions := nonOptions + [argument];
      }
      i := i + 1;
    }
    ThenEmpty(Success(ParsedArguments(options, nonOptions)));
    r := Success(ParsedArguments(options, nonOptions));
  }
}
