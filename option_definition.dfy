/** GetOpt/Models/OptionDefinition.cs: one recognised option and its eager validation. */
module Definitions {
  import opened Wrappers

  /** The C# `char` default value, meaning "no short name". */
  const NoShortName: char := '\0'

  /** The name of the .NET type an argument is converted to (`Type ArgumentType`). */
  type TypeName = string

  /**
   * The get-only properties of an option definition. `None` stands for C#'s `null`;
   * bounds are values of the ordered type the model converts arguments to.
   */
  datatype OptionDefinition = OptionDefinition(
    longName: Option<string>,
    shortName: char,
    argumentType: Option<TypeName>,
    minimum: Option<int>,
    maximum: Option<int>)
  {
    /** `HasArgument => !(ArgumentType is null)`. */
    predicate HasArgument() {
      argumentType.Some?
    }
  }

  /** `s.StartsWith("-")`, an ordinal test of the first character. */
  predicate StartsWithDash(s: string) {
    |s| > 0 && s[0] == '-'
  }

  /** What the constructors throw. */
  datatype DefinitionError =
    | NameMissing                 // ArgumentNullException: neither a long nor a short name
    | MinimumGreaterThanMaximum   // ArgumentException: both bounds given, minimum > maximum
    | BoundsWithoutArgument       // ArgumentException: a flag with a bound (intended check only)
    | ShortNameNotOneCharacter    // ArgumentException from StringToChar

  /** `StringToChar`: null or empty gives the no-short-name char, one character gives itself. */
  function StringToChar(shortName: Option<string>): (r: Result<char, DefinitionError>)
    ensures (shortName.None? || shortName.value == "") ==> r == Success(NoShortName)
    ensures shortName.Some? && |shortName.value| == 1 ==> r == Success(shortName.value[0])
    ensures r.Failure? <==> shortName.Some? && |shortName.value| > 1
    ensures r.Failure? ==> r.error == ShortNameNotOneCharacter
  {
    if shortName.None? || |shortName.value| == 0 then Success(NoShortName)
    else if |shortName.value| != 1 then Failure(ShortNameNotOneCharacter)
    else Success(shortName.value[0])
  }

  /**
   * The main constructor AS WRITTEN. Its third check ("options without an argument can
   * have neither minimum nor maximum") reads the properties before they are assigned,
   * where all of them are still null, so it never rejects anything and is absent here.
   */
  function Create(longName: Option<string>, shortName: char, argumentType: Option<TypeName>,
                  minimum: Option<int>, maximum: Option<int>): (r: Result<OptionDefinition, DefinitionError>)
    ensures r.Failure? <==>
      (shortName == NoShortName && longName.None?) ||
      (minimum.Some? && maximum.Some? && minimum.value > maximum.value)
    ensures shortName == NoShortName && longName.None? ==> r == Failure(NameMissing)
    ensures (shortName != NoShortName || longName.Some?) && r.Failure? ==> r.error == MinimumGreaterThanMaximum
    ensures r.Success? ==> r.value == OptionDefinition(longName, shortName, argumentType, minimum, maximum)
  {
    if shortName == NoShortName && longName.None? then Failure(NameMissing)
    else if minimum.Some? && maximum.Some? && minimum.value > maximum.value then Failure(MinimumGreaterThanMaximum)
    else Success(OptionDefinition(longName, shortName, argumentType, minimum, maximum))
  }

  /** The invariants a definition is meant to have once constructed. */
  predicate WellFormed(d: OptionDefinition) {
    && (d.shortName != NoShortName || d.longName.Some?)
    && (d.minimum.Some? && d.maximum.Some? ==> d.minimum.value <= d.maximum.value)
    && (!d.HasArgument() ==> d.minimum.None? && d.maximum.None?)
  }

  /** The main constructor with its third check reading the constructor's ARGUMENTS, as intended. */
  function CreateChecked(longName: Option<string>, shortName: char, argumentType: Option<TypeName>,
                         minimum: Option<int>, maximum: Option<int>): (r: Result<OptionDefinition, DefinitionError>)
    ensures r.Success? <==>
      WellFormed(OptionDefinition(longName, shortName, argumentType, minimum, maximum))
    ensures shortName == NoShortName && longName.None? ==> r == Failure(NameMissing)
    ensures (shortName != NoShortName || longName.Some?) && minimum.Some? && maximum.Some? && minimum.value > maximum.value ==>
      r == Failure(MinimumGreaterThanMaximum)
    ensures (shortName != NoShortName || longName.Some?) && r.Failure? &&
            !(minimum.Some? && maximum.Some? && minimum.value > maximum.value) ==>
      r.error == BoundsWithoutArgument
    ensures r.Success? ==> r.value == OptionDefinition(longName, shortName, argumentType, minimum, maximum)
  {
    if shortName == NoShortName && longName.None? then Failure(NameMissing)
    else if minimum.Some? && maximum.Some? && minimum.value > maximum.value then Failure(MinimumGreaterThanMaximum)
    else if argumentType.None? && (minimum.Some? || maximum.Some?) then Failure(BoundsWithoutArgument)
    else Success(OptionDefinition(longName, shortName, argumentType, minimum, maximum))
  }

  /** As written, a flag (no argument type) with a minimum is accepted, by both constructors that build one. */
  lemma CreateAcceptsBoundedFlag()
    ensures var r := Create(Some("verbose"), 'v', None, Some(1), None);
      r.Success? && !r.value.HasArgument() && r.value.minimum == Some(1)
    ensures var r := CreateWithShortString(Some("verbose"), Some("v"), None, Some(1), None);
      r.Success? && !r.value.HasArgument() && r.value.minimum == Some(1)
  {
  }

  /** The intended constructor rejects exactly that definition, and agrees with the written one elsewhere. */
  lemma CreateCheckedRefinesCreate(longName: Option<string>, shortName: char, argumentType: Option<TypeName>,
                                   minimum: Option<int>, maximum: Option<int>)
    ensures CreateChecked(longName, shortName, argumentType, minimum, maximum).Success? ==>
      CreateChecked(longName, shortName, argumentType, minimum, maximum) ==
      Create(longName, shortName, argumentType, minimum, maximum)
    ensures (argumentType.Some? || (minimum.None? && maximum.None?)) ==>
      CreateChecked(longName, shortName, argumentType, minimum, maximum) ==
      Create(longName, shortName, argumentType, minimum, maximum)
    ensures argumentType.None? && (minimum.Some? || maximum.Some?) ==>
      CreateChecked(longName, shortName, argumentType, minimum, maximum).Failure?
  {
  }

  /**
   * The constructor taking the short name as a string: StringToChar runs first, then the
   * main constructor as written, so it inherits that constructor's missing check.
   */
  function CreateWithShortString(longName: Option<string>, shortName: Option<string>, argumentType: Option<TypeName>,
                                 minimum: Option<int>, maximum: Option<int>): (r: Result<OptionDefinition, DefinitionError>)
    ensures StringToChar(shortName).Failure? ==> r == Failure(ShortNameNotOneCharacter)
    ensures StringToChar(shortName).Success? ==>
      r == Create(longName, StringToChar(shortName).value, argumentType, minimum, maximum)
  {
    var c :- StringToChar(shortName);
    Create(longName, c, argumentType, minimum, maximum)
  }

  /** The string-short-name constructor with the intended third check. */
  function CreateWithShortStringChecked(longName: Option<string>, shortName: Option<string>, argumentType: Option<TypeName>,
                                        minimum: Option<int>, maximum: Option<int>): (r: Result<OptionDefinition, DefinitionError>)
    ensures StringToChar(shortName).Failure? ==> r == Failure(ShortNameNotOneCharacter)
    ensures StringToChar(shortName).Success? ==>
      (r.Success? <==> WellFormed(OptionDefinition(longName, StringToChar(shortName).value, argumentType, minimum, maximum)))
    ensures r.Success? ==>
      r.value == OptionDefinition(longName, StringToChar(shortName).value, argumentType, minimum, maximum)
  {
    var c :- StringToChar(shortName);
    CreateChecked(longName, c, argumentType, minimum, maximum)
  }

  /** `OptionDefinition(string longName, char shortName = default)`: a flag. */
  function Flag(longName: Option<string>, shortName: char): (r: Result<OptionDefinition, DefinitionError>)
    ensures r.Success? <==> (shortName != NoShortName || longName.Some?)
    ensures r.Success? ==> r.value == OptionDefinition(longName, shortName, None, None, None)
  {
    Create(longName, shortName, None, None, None)
  }

  /** `OptionDefinition(string longName, string shortName = default)`: a flag named by a string. */
  function FlagWithShortString(longName: Option<string>, shortName: Option<string>): (r: Result<OptionDefinition, DefinitionError>)
    ensures r.Success? ==> !r.value.HasArgument() && r.value.longName == longName
    ensures StringToChar(shortName).Failure? ==> r == Failure(ShortNameNotOneCharacter)
    ensures StringToChar(shortName).Success? ==> r == Flag(longName, StringToChar(shortName).value)
    ensures r.Success? <==>
      StringToChar(shortName).Success? && (StringToChar(shortName).value != NoShortName || longName.Some?)
  {
    var c :- StringToChar(shortName);
    Flag(longName, c)
  }

  /** Equal bounds are accepted; a minimum above the maximum is rejected, whatever the argument type. */
  lemma BoundsOrder(longName: string, argumentType: TypeName, bound: int)
    ensures Create(Some(longName), NoShortName, Some(argumentType), Some(bound), Some(bound)).Success?
    ensures Create(Some(longName), NoShortName, Some(argumentType), Some(bound + 1), Some(bound)) ==
      Failure(MinimumGreaterThanMaximum)
  {
  }
}
