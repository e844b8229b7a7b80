# GetOpt command-line parsing, modelled in Dafny

This project models the older `ArgumentList` extension of the GetOpt library. It covers four things:

* how an ordered list of command-line tokens is split into options and non-options;
* the option definitions the parser is given, and their constructors;
* the observable list of definitions, which refuses duplicated names;
* the parser parameters and parse flags.

The parser reads the tokens one at a time from left to right:

* After `--`, every remaining token is a non-option.
* A token starting with `--` is a long option `--name` or `--name=value`.
* A token starting with `-` and longer than one character is a cluster of short options.
  * The first letter in the cluster that takes an argument ends the cluster.
  * That letter's argument is the rest of the token. If that rest is empty, the argument is the next token, provided the next token does not start with `-`.
* Anything else, including a lone `-` and the empty string, is a non-option.

Each argument is converted to the option's type and then checked against its bounds, which are inclusive. The first error aborts the whole parse.

Modules:

| Module | File | Models |
|---|---|---|
| `Wrappers` | `wrappers.dfy` | `Option` stands in for C# `null`; `Result` for a value or the exception thrown. |
| `Errors` | `errors.dfy` | The `GetOptError` enum. |
| `Flags` | `parse_flags.dfy` | `ParseFlags` as a 32-bit vector, and the `CaseInsensitive()` bit test. |
| `Params` | `parameters.dfy` | The `Parameters` constructor: its defaults and upper-casing. |
| `Definitions` | `option_definition.dfy` | `OptionDefinition`: its constructors, `HasArgument` and `StringToChar`. |
| `DefinitionLists` | `option_definition_list.dfy` | `GetDuplicates` and `CheckForDuplicates`, the two indexers, and the class `OptionDefinitionList`. That class keeps its entries in a field `items`, which every collection operation updates in place. `Add`, `Insert` and replacement run the duplicate check after the change; removal, moving and clearing never run it. |
| `GetOpt` | `getopt.dfy` | `ToTargetType`, `ParseLongOption`, the short-option loop as a method `ParseShortOption`, and the scan loop as a method `ArgumentList`. Each method is proved equal to a recursive specification function (`ParseCluster`, `Parse`). |
| `ScanProperties` | `getopt_properties.dfy` | Properties of that specification: step equations, `--`, concatenation, errors aborting, where options and non-options come from. |
| `SampleCommandLine` | `sample.dfy` | The standard test definitions and the working-day command line of the test suite, with the outcomes the tests expect. |

The list class is faithful to the source on one point: `Add`, `Insert` and `SetAt` first change the list and only then look for duplicates. When the check fails, the offending entry is still in the list. The methods therefore return the error *and* the changed list.

## Model

| member | source | states |
|---|---|---|
| `Errors.GetOptError.Code` | GetOpt/Enums/GetOptError.cs:3-13 | The enum values are 0 to 7, and only `NoError` is 0. |
| `Flags.CaseInsensitive` | GetOpt/Models/ParseFlags.cs:14 | The flag is set exactly when bit 0 of the flags is set. |
| `Flags.DefaultIsCaseSensitive` | GetOpt/Models/ParseFlags.cs:8 | `Default` is 0 and does not select case-insensitivity. |
| `Flags.CaseInsensitiveIsBitZero` | GetOpt/Models/ParseFlags.cs:9 | `CaseInsensitive` is the value 1, and the test recognises it. |
| `Flags.OnlyBitZeroMatters` | GetOpt/Models/ParseFlags.cs:5-14 | Two flag sets that agree on bit 0 agree on case-insensitivity, whatever their other bits. |
| `Params.MapUpper` | GetOpt/Models/Parameters.cs:22-26 | Upper-casing a list keeps its length and upper-cases each literal in place. |
| `Params.NewParameters` | GetOpt/Models/Parameters.cs:9-27 | The flags are kept. A list that is not supplied falls back to its default. The lists are upper-cased exactly when the flags select case-insensitivity. |
| `Params.DefaultLiteralsDisjoint` | GetOpt/Models/Parameters.cs:29-30 | No default true literal is also a default false literal. |
| `Params.DefaultsWhenNothingSupplied` | GetOpt/Models/Parameters.cs:18-30 | With default flags and no lists, the parameters hold `true yes on 1` and `false no off 0`. |
| `Params.CaseInsensitiveUpperCases` | GetOpt/Models/Parameters.cs:22-26 | Under case-insensitivity, each of the two supplied lists comes back upper-cased literal by literal, at its own length. |
| `Definitions.StringToChar` | GetOpt/Models/OptionDefinition.cs:90-103 | A null or empty string gives the null character, and one character gives itself. A longer string is exactly the failing case, and it fails with the one-character error. |
| `Definitions.Create` | GetOpt/Models/OptionDefinition.cs:51-74 | The constructor as written. It rejects exactly two cases: neither a long nor a short name, and minimum above maximum. A missing name is reported first, and any other failure is minimum-greater-than-maximum. On success every property equals its argument. |
| `Definitions.CreateChecked` | GetOpt/Models/OptionDefinition.cs:51-74 | The constructor with its third check working as intended. It succeeds exactly when the definition is well formed: it has a name, its bounds are ordered, and a flag has no bounds. The errors come in source order: a missing name, then minimum above maximum, then bounds on a flag. On success every property equals its argument. |
| `Definitions.CreateAcceptsBoundedFlag` | GetOpt/Models/OptionDefinition.cs:38-66 | As written, a flag with a minimum is accepted and keeps the minimum. This holds for the main constructor and for the string-short-name one. |
| `Definitions.CreateCheckedRefinesCreate` | GetOpt/Models/OptionDefinition.cs:51-74 | The corrected constructor accepts only what the written one accepts. The two agree unless a flag has a bound, and that case the corrected one rejects. |
| `Definitions.CreateWithShortString` | GetOpt/Models/OptionDefinition.cs:38-40 | A short name longer than one character is refused. Otherwise the result is the main constructor as written, applied to the converted character, so a flag with bounds is accepted here too. |
| `Definitions.CreateWithShortStringChecked` | GetOpt/Models/OptionDefinition.cs:38-40 | The same constructor with the intended check. After a valid conversion it succeeds exactly when the definition is well formed, and then every property equals its argument. |
| `Definitions.Flag` | GetOpt/Models/OptionDefinition.cs:27 | A flag is created exactly when it has some name, with no argument type and no bounds. |
| `Definitions.FlagWithShortString` | GetOpt/Models/OptionDefinition.cs:20 | A flag built from a string short name succeeds exactly when the string converts and the flag then has some name. It equals the character flag constructor applied to the converted character, so it takes no argument and has no bounds. An invalid short string is refused. |
| `Definitions.BoundsOrder` | GetOpt/Models/OptionDefinition.cs:58-61 | Equal bounds are accepted. A minimum one above the maximum is rejected with the minimum-greater-than-maximum error. |
| `DefinitionLists.GroupKeys` | GetOpt/Models/OptionDefinitionList.cs:77-84 | The group keys are the values of the list, each exactly once. |
| `DefinitionLists.RepeatedKeys` | GetOpt/Models/OptionDefinitionList.cs:77-84 | The keys kept are exactly those that occur more than once, and they stay distinct. |
| `DefinitionLists.GetDuplicates` | GetOpt/Models/OptionDefinitionList.cs:77-84 | A string is reported exactly when it occurs more than once, and each is reported once. |
| `DefinitionLists.Keys` | GetOpt/Models/OptionDefinitionList.cs:60-68 | The keys are exactly the keys of the definitions that have one. |
| `DefinitionLists.LongDuplicates` | GetOpt/Models/OptionDefinitionList.cs:58-63 | The duplicated long keys are distinct, and each is written `--name`. |
| `DefinitionLists.ShortDuplicates` | GetOpt/Models/OptionDefinitionList.cs:64-69 | The duplicated short keys are distinct, and each is `-c` for a real character. |
| `DefinitionLists.CheckForDuplicates` | GetOpt/Models/OptionDefinitionList.cs:56-75 | An error is raised only with a non-empty list of names: the long duplicates followed by the short duplicates. |
| `DefinitionLists.KeySharedCons` | GetOpt/Models/OptionDefinitionList.cs:77-84 | A key is shared by a list exactly when the head shares it with the tail, or the tail shares it. |
| `DefinitionLists.KeyCount` | GetOpt/Models/OptionDefinitionList.cs:77-84 | A key occurs more than once among the keys exactly when two different entries carry it. |
| `DefinitionLists.LongKeyInjective` | GetOpt/Models/OptionDefinitionList.cs:61-62 | Equal `--name` keys come from equal long names. |
| `DefinitionLists.NoRepeatedKey` | GetOpt/Models/OptionDefinitionList.cs:56-75 | No duplicate is reported exactly when no two entries share a key. |
| `DefinitionLists.CheckForDuplicatesIffNotUnique` | GetOpt/Models/OptionDefinitionList.cs:56-75 | The check passes exactly when no long name and no real short name occurs twice. |
| `DefinitionLists.MissingNameAddsNoKey` | GetOpt/Models/OptionDefinitionList.cs:60-68 | An entry without a long name adds no long key and no long duplicate, wherever it stands in the list. The same holds for an entry whose short name is the null character. |
| `DefinitionLists.SharedLongNameReported` | GetOpt/Models/OptionDefinitionList.cs:58-63 | Two entries with the same long name get that name reported as `--name`. |
| `DefinitionLists.SharedShortNameReported` | GetOpt/Models/OptionDefinitionList.cs:64-69 | Two entries with the same short name get that name reported as `-c`. |
| `DefinitionLists.UniqueAppend` | GetOpt/Models/OptionDefinitionList.cs:46-54 | Appending to a clean list keeps it clean exactly when the new entry clashes with no entry. |
| `DefinitionLists.UniqueRemove` | GetOpt/Models/OptionDefinitionList.cs:46-54 | Removing an entry keeps a clean list clean. |
| `DefinitionLists.UniqueInsert` | GetOpt/Models/OptionDefinitionList.cs:46-54 | Inserting an entry that clashes with nothing keeps a clean list clean, at any position. |
| `DefinitionLists.UniqueReplace` | GetOpt/Models/OptionDefinitionList.cs:46-54 | Replacing an entry keeps a clean list clean exactly when the new entry clashes with none of the others. |
| `DefinitionLists.UniqueEntryNoClash` | GetOpt/Models/OptionDefinitionList.cs:46-54 | Every entry of a clean list clashes with none of the others. |
| `DefinitionLists.UniqueMove` | GetOpt/Models/OptionDefinitionList.cs:46-54 | Moving an entry keeps a clean list clean. |
| `DefinitionLists.LongKey` | GetOpt/Models/OptionDefinitionList.cs:61-62 | No contract of its own. `LongKeyInjective` states it is one-to-one, and `MissingNameAddsNoKey` states that a missing long name gives no key. |
| `DefinitionLists.ShortKey` | GetOpt/Models/OptionDefinitionList.cs:67-68 | No contract of its own. `ShortDuplicates` states its keys are `-c` for a real character, and `MissingNameAddsNoKey` states that the null character gives no key. |
| `DefinitionLists.WithLongName` | GetOpt/Models/OptionDefinitionList.cs:37 | No contract of its own. Its meaning is stated by `WithLongNameMembers`, `NoLongMatch` and `AtMostOneMatch`. |
| `DefinitionLists.WithShortName` | GetOpt/GetOpt.cs:58 | No contract of its own. Its meaning is stated by `WithShortNameMembers`, `NoShortMatch` and `AtMostOneMatch`. |
| `DefinitionLists.WithLongNameMembers` | GetOpt/Models/OptionDefinitionList.cs:37 | The entries filtered by long name are exactly the entries carrying that name. |
| `DefinitionLists.WithShortNameMembers` | GetOpt/Models/OptionDefinitionList.cs:43 | The entries filtered by short name are exactly the entries carrying that real character. |
| `DefinitionLists.NoLongMatch` | GetOpt/Models/OptionDefinitionList.cs:37 | If no entry carries the long name, the filter is empty. |
| `DefinitionLists.NoShortMatch` | GetOpt/Models/OptionDefinitionList.cs:43 | If no entry carries the character, the filter is empty. |
| `DefinitionLists.AtMostOneMatch` | GetOpt/Models/OptionDefinitionList.cs:37-43 | In a clean list, both filters find at most one entry, so `SingleOrDefault` never throws. |
| `DefinitionLists.SingleOrDefault` | GetOpt/Models/OptionDefinitionList.cs:37 | It succeeds exactly on at most one match. It returns the one match, or null when there is none. |
| `DefinitionLists.OptionDefinitionList.constructor` | GetOpt/Models/OptionDefinitionList.cs:11-15 | A new list is empty. |
| `DefinitionLists.OptionDefinitionList.FromSequence` | GetOpt/Models/OptionDefinitionList.cs:17-21 | Building from a sequence fails exactly when names repeat, with the duplicate error. Otherwise the new list holds the sequence. |
| `DefinitionLists.OptionDefinitionList.ToOptionList` | GetOpt/Models/OptionDefinitionList.cs:87-90 | Null gives an empty list. A sequence gives a list of it, and fails exactly when its names repeat. |
| `DefinitionLists.OptionDefinitionList.ByLongName` | GetOpt/Models/OptionDefinitionList.cs:23-39 | A null index and a dash-prefixed index throw. A found entry is in the list and carries the name. Not found means no entry carries it. On a valid index it fails exactly when two or more entries carry the name, with the more-than-one-match error; that is reachable after a rejected `Add`. A clean list never throws on a valid index. |
| `DefinitionLists.OptionDefinitionList.ByShortName` | GetOpt/Models/OptionDefinitionList.cs:41-44 | The null character throws. A found entry carries the character. Not found means no entry carries it. On a real character it fails exactly when two or more entries carry it, with the more-than-one-match error. A clean list never throws on a valid index. |
| `DefinitionLists.OptionDefinitionList.Add` | GetOpt/Models/OptionDefinitionList.cs:46-54 | The entry is appended, and it stays appended even when the duplicate check then fails. On a clean list the check passes exactly when the entry clashes with nothing. |
| `DefinitionLists.OptionDefinitionList.Insert` | GetOpt/Models/OptionDefinitionList.cs:46-54 | An index outside the list fails and changes nothing. Otherwise the entry is inserted and the list is checked. A clashless entry in a clean list passes. |
| `DefinitionLists.OptionDefinitionList.SetAt` | GetOpt/Models/OptionDefinitionList.cs:46-54 | An index outside the list fails and changes nothing. Otherwise the entry is replaced and the list is checked. On a clean list the check passes exactly when the new entry clashes with none of the others. |
| `DefinitionLists.OptionDefinitionList.RemoveAt` | GetOpt/Models/OptionDefinitionList.cs:48-51 | Removal is not checked. A valid index removes that entry, an invalid one changes nothing, and a clean list stays clean. |
| `DefinitionLists.OptionDefinitionList.Move` | GetOpt/Models/OptionDefinitionList.cs:46-54 | Moving is not checked; the move itself is the one the class inherits from its base collection. With both indices valid the entry moves to its new index. An invalid old index throws and changes nothing. An invalid new index throws only after the entry has been removed, so the entry is lost. A clean list stays clean in every case. |
| `DefinitionLists.OptionDefinitionList.Clear` | GetOpt/Models/OptionDefinitionList.cs:48-51 | The list becomes empty, which is clean. |
| `GetOpt.FindLong` | GetOpt/GetOpt.cs:88 | A found long option is one of the definitions and carries exactly that long name. |
| `GetOpt.FindShort` | GetOpt/GetOpt.cs:58 | A found short option is one of the definitions, with that real character as its short name. |
| `GetOpt.FindNone` | GetOpt/GetOpt.cs:58-63 | Lookup finds nothing exactly when no definition carries the name. Both lookups are covered: long names, and short names that are real characters. |
| `GetOpt.FindIsSingleOrDefault` | GetOpt/GetOpt.cs:58 | On definitions with unique names, `SingleOrDefault` does not throw and agrees with the first-match lookup. |
| `GetOpt.OptionText` | GetOpt/GetOpt.cs:115 | No contract of its own. `SampleCommandLine.DayOutOfRange` shows it gives `-w` in short form and `--work-day` in long form. |
| `GetOpt.ToTargetType` | GetOpt/GetOpt.cs:112-142 | A conversion failure gives a type-mismatch error that names the option. A converted value is returned unchanged exactly when it lies within the given bounds. Otherwise the result is an out-of-range error. |
| `GetOpt.BoundsInclusive` | GetOpt/GetOpt.cs:126-139 | Both bounds themselves are accepted. One below the minimum and one above the maximum are out of range. |
| `GetOpt.FirstEquals` | GetOpt/GetOpt.cs:87 | The position found holds the first `=`. Nothing found means there is no `=`. |
| `GetOpt.SplitAtEquals` | GetOpt/GetOpt.cs:87 | Splitting into at most two parts: a name free of `=`, and the rest after the first `=`. The parts rebuild the text. |
| `GetOpt.SplitAtEqualsUnique` | GetOpt/GetOpt.cs:87 | `name=value` splits into that name and value, and a name without `=` stays whole. |
| `GetOpt.ParseLongOption` | GetOpt/GetOpt.cs:85-110 | No contract of its own. Its meaning is stated by `LongOptionOutcome` and `LongOptionForms`. |
| `GetOpt.LongOptionOutcome` | GetOpt/GetOpt.cs:85-110 | An unknown name fails as unknown `--name`. A parsed long option uses the definition of that name. A value is present exactly when the token had one, and exactly when the option takes an argument. |
| `GetOpt.LongOptionForms` | GetOpt/GetOpt.cs:95-108 | The four cases for a known name: must-have, plain flag, must-not-have, and a converted value. |
| `GetOpt.TakeArgument` | GetOpt/GetOpt.cs:65-79 | The next token is consumed only when there is one. |
| `GetOpt.TakeArgumentOutcome` | GetOpt/GetOpt.cs:65-79 | A letter taking an argument yields one option. It consumes the next token exactly when it is the last letter, and then converts that token; otherwise it converts the rest of the token. At the end with no next token it fails with must-have `-c`. |
| `GetOpt.ParseCluster` | GetOpt/GetOpt.cs:56-82 | The next token is consumed only when there is one. |
| `GetOpt.FlagsThenFailure` | GetOpt/GetOpt.cs:55-81 | Flags do not stop the cluster: after any run of defined flags, the cluster fails exactly as the rest of the token fails. |
| `GetOpt.ClusterFailsAt` | GetOpt/GetOpt.cs:58-79 | After any run of defined flags, an undefined letter fails as unknown `-c`. An argument-taking letter fails exactly as taking its argument fails: a conversion or range error, or must-have `-c` when it ends the token and no next token is offered. |
| `GetOpt.ClusterFailureCause` | GetOpt/GetOpt.cs:56-82 | Every cluster error has such a cause: defined flags up to some letter that is either undefined (unknown option) or takes an argument that cannot be taken (that error). |
| `GetOpt.ClusterStep` | GetOpt/GetOpt.cs:58-81 | A successful cluster resolves its letter. A letter taking an argument ends the cluster. A flag letter is followed by the rest of the cluster. |
| `GetOpt.ShortNamesCons` | GetOpt/GetOpt.cs:70-81 | Prepending the option of the letter just read keeps the options aligned with the letters. |
| `GetOpt.ClusterNames` | GetOpt/GetOpt.cs:56-82 | The options of a cluster are its letters, in order. |
| `GetOpt.FlagsCons` | GetOpt/GetOpt.cs:81 | Prepending a flag keeps all options but the last flags, and does not change the last option. |
| `GetOpt.ClusterStops` | GetOpt/GetOpt.cs:72-79 | Every option of a cluster but the last is a flag. A cluster ending early ends on an option that takes its argument from the token. Consuming the next token uses up every letter. |
| `GetOpt.ClusterArgument` | GetOpt/GetOpt.cs:72-79 | The last option has an argument exactly when it takes one. That argument is the converted rest of the token, or the converted next token when the token is consumed. |
| `GetOpt.ClusterDefinitions` | GetOpt/GetOpt.cs:58 | Every option of a cluster comes from the definitions. |
| `GetOpt.PrependNothing` | GetOpt/GetOpt.cs:56-82 | Prepending no options leaves a cluster unchanged. |
| `GetOpt.PrependStep` | GetOpt/GetOpt.cs:76-81 | Adding options one by one is the same as prepending them all at once. |
| `GetOpt.ParseShortOption` | GetOpt/GetOpt.cs:54-83 | The loop's options, and whether it consumes the next token, are exactly those of the cluster specification from the first letter on. |
| `GetOpt.NextOf` | GetOpt/GetOpt.cs:21 | The next token is offered exactly when there is one and it does not start with `-`. |
| `GetOpt.Scan` | GetOpt/GetOpt.cs:18-49 | No contract of its own. It is the specification the loop of `ArgumentList` is proved equal to. Its meaning is stated by the `ScanProperties` lemmas. |
| `GetOpt.Parse` | GetOpt/GetOpt.cs:11-52 | No contract of its own. It is `Scan` from the first token, outside the end-of-options state. |
| `GetOpt.ThenAssociative` | GetOpt/GetOpt.cs:15-51 | Appending parse results is associative, so the scan can be regrouped. |
| `GetOpt.ThenEmpty` | GetOpt/GetOpt.cs:15 | The empty result is a unit for appending. |
| `GetOpt.ArgumentList` | GetOpt/GetOpt.cs:11-52 | On definitions with unique names, the loop's result (options, non-options, or the first error) is exactly that of the scan specification. |
| `ScanProperties.ScanClusterStep` | GetOpt/GetOpt.cs:42-46 | A successful cluster contributes its options. The scan resumes after the token, or after its argument token when that is consumed. |
| `ScanProperties.ScanLongStep` | GetOpt/GetOpt.cs:35-40 | A successful long option contributes its option, and the scan resumes at the next token. |
| `ScanProperties.ScanPositionalStep` | GetOpt/GetOpt.cs:48 | A lone dash or a token not starting with a dash becomes a non-option. |
| `ScanProperties.ScanClusterFails` | GetOpt/GetOpt.cs:42-46 | A failing cluster aborts the scan with its error. |
| `ScanProperties.ScanLongFails` | GetOpt/GetOpt.cs:35-40 | A failing long option aborts the scan with its error. |
| `ScanProperties.ScanShift` | GetOpt/GetOpt.cs:18-49 | The scan of a suffix does not depend on the tokens before it. |
| `ScanProperties.ScanSplit` | GetOpt/GetOpt.cs:18-49 | Before a dash-prefixed token or the end, the scan splits into the scan of the prefix then the scan of the rest. |
| `ScanProperties.ParseConcat` | GetOpt/GetOpt.cs:18-49 | Parsing a marker-free prefix and a dash-led rest is parsing each and appending. |
| `ScanProperties.AfterEndOfOptions` | GetOpt/GetOpt.cs:23-27 | After `--`, every remaining token is a non-option, unchanged and in order. |
| `ScanProperties.EndOfOptionsMarker` | GetOpt/GetOpt.cs:29-33 | `--` is dropped, and everything after it is a non-option. |
| `ScanProperties.AllPositional` | GetOpt/GetOpt.cs:48 | Tokens that are all positional give no options, and themselves as non-options. |
| `ScanProperties.NoDashTokens` | GetOpt/GetOpt.cs:48 | Tokens without a leading dash are returned as non-options, unchanged. |
| `ScanProperties.PositionalToken` | GetOpt/GetOpt.cs:48 | A lone dash or the empty string at the front becomes a non-option, and parsing goes on. |
| `ScanProperties.LongToken` | GetOpt/GetOpt.cs:35-40 | A long option at the front either aborts with its error, or contributes its option before the rest. |
| `ScanProperties.ClusterToken` | GetOpt/GetOpt.cs:42-46 | A cluster at the front either aborts, or contributes its options. Parsing then resumes after the cluster, or after the next token when that was consumed. |
| `ScanProperties.MustHaveWhenNextIsDash` | GetOpt/GetOpt.cs:21 | `-c` for an option that takes an argument, followed by a dash-prefixed token or nothing, fails as must-have. |
| `ScanProperties.ErrorAborts` | GetOpt/GetOpt.cs:35-46 | An error anywhere aborts the parse. After a clean prefix, the error is the rest's own. |
| `ScanProperties.NonOptionsPositional` | GetOpt/GetOpt.cs:48 | Without a marker, every non-option returned is positional. |
| `ScanProperties.OptionsFromDefinitions` | GetOpt/GetOpt.cs:37-44 | Every option returned comes from the definitions. |
| `SampleCommandLine.WeekDayValue` | GetOptTests/TestOptions.cs:23 | The working-day converter yields only values from 0 to 6. |
| `SampleCommandLine.ConvertWeekDays` | GetOptTests/TestOptions.cs:23 | The sample converter converts the day names the tests use, and rejects `MOnday`. |
| `SampleCommandLine.StandardWellFormed` | GetOptTests/TestOptions.cs:8-36 | The standard definitions pass the intended constructor checks, and their names are unique. |
| `SampleCommandLine.StandardLookups` | GetOptTests/TestOptions.cs:8-36 | In the standard definitions, `w` and `work-day` find the work-day option, `v` finds verbose, and `z` finds nothing. |
| `SampleCommandLine.StandardShortW` | GetOptTests/TestOptions.cs:23 | `-w` resolves to the work-day option. |
| `SampleCommandLine.StandardShortV` | GetOptTests/TestOptions.cs:11 | `-v` resolves to verbose. |
| `SampleCommandLine.StandardShortZ` | GetOptTests/TestOptions.cs:8-36 | `-z` is not defined. |
| `SampleCommandLine.StandardLongWorkDay` | GetOptTests/TestOptions.cs:23 | `--work-day` resolves to the work-day option. |
| `SampleCommandLine.ClusterVerboseStep` | GetOpt/GetOpt.cs:81 | A `v` inside a cluster contributes verbose and lets the cluster go on. |
| `SampleCommandLine.DayAccepted` | GetOpt/GetOpt.cs:136-141 | Days from Monday to Friday are accepted in both forms. |
| `SampleCommandLine.DayOutOfRange` | GetOpt/GetOpt.cs:136-139 | Other days are out of range. The error names `-w` or `--work-day`, by form. |
| `SampleCommandLine.DayUnknown` | GetOpt/GetOpt.cs:117-124 | A text that does not convert is a type mismatch on `-w`. |
| `SampleCommandLine.ClusterWorkDay` | GetOpt/GetOpt.cs:72-79 | `w` in a cluster takes the day from the rest of the token, or from the next token when it is last. |
| `SampleCommandLine.WorkDayToken` | GetOpt/GetOpt.cs:35 | `--work-day=text` is a long token named `work-day` carrying `text`. |
| `SampleCommandLine.AttachedWorkDayToken` | GetOpt/GetOpt.cs:42 | `-wtext` is a cluster starting with `w` followed by `text`. |
| `SampleCommandLine.LongWorkDay` | GetOpt/GetOpt.cs:103-108 | `--work-day=` with a working day parses to that day. |
| `SampleCommandLine.AttachedWorkDayStep` | GetOpt/GetOpt.cs:42-46 | `-w` with the day in the same token gives that day, and the scan goes on after the token. |
| `SampleCommandLine.NextWorkDayStep` | GetOpt/GetOpt.cs:74-77 | `-w` followed by a day token gives that day and skips both tokens. |
| `SampleCommandLine.VerboseAttachedWorkDayStep` | GetOpt/GetOpt.cs:56-82 | `-vw` with an attached day gives verbose and then the day. |
| `SampleCommandLine.VerboseNextWorkDayStep` | GetOpt/GetOpt.cs:56-82 | `-vw` followed by a day token gives verbose and then the day, and skips both tokens. |
| `SampleCommandLine.LongWorkDayStep` | GetOpt/GetOpt.cs:35-40 | `--work-day=` with a working day gives that day, and the scan goes on. |
| `SampleCommandLine.CommandLineTokens` | GetOptTests/UnitTests.cs:13 | The test's command line has the token shapes the steps need. |
| `SampleCommandLine.ScanFromMarker` | GetOpt/GetOpt.cs:23-33 | From `--` on, the test's last two tokens are non-options. |
| `SampleCommandLine.ComposeTailSteps` | GetOpt/GetOpt.cs:18-49 | The last four steps of the scan add up to `Tuesday, -v, Tuesday` with the positional token and the tokens after `--`. |
| `SampleCommandLine.ComposeHeadSteps` | GetOpt/GetOpt.cs:18-49 | The first three steps in front of that add up to the seven expected options. |
| `SampleCommandLine.ScenarioTail` | GetOptTests/UnitTests.cs:16-43 | From the fourth token on, the line parses to `Tuesday, -v, Tuesday`, the positional token and the tokens after `--`. |
| `SampleCommandLine.ScenarioSteps` | GetOptTests/UnitTests.cs:16-43 | Any line of those token shapes parses to the test's seven options and three non-options. |
| `SampleCommandLine.WorkingDay` | GetOptTests/UnitTests.cs:11-45 | The test's command line parses to Friday, Wednesday, verbose, Monday, Tuesday, verbose, Tuesday. The non-options are `Friday`, `-wSaturday` and `--work-day=Sunday`. This holds for any definitions and converter that resolve as the standard ones do. |
| `SampleCommandLine.WorkingDayStandard` | GetOptTests/UnitTests.cs:11-45 | The same, with the standard definitions and the sample converter. |
| `SampleCommandLine.NamesNotConverted` | GetOpt/GetOpt.cs:117-124 | With a conversion that does not read week-day names, the test's command line already fails on its first token, as a type mismatch on `-w`. |
| `SampleCommandLine.MissingWorkDay` | GetOptTests/WorkDayTests.cs:87-90 | `-w` at the end, or before a dash-prefixed token, fails as must-have `-w`. |
| `SampleCommandLine.MissingLongWorkDay` | GetOptTests/WorkDayTests.cs:88-89 | `--work-day` without `=` fails as must-have `--work-day`, whatever follows. |
| `SampleCommandLine.AttachedWorkDayCluster` | GetOpt/GetOpt.cs:72-79 | A rejected attached day makes the cluster fail with that error. |
| `SampleCommandLine.AttachedWorkDayFails` | GetOpt/GetOpt.cs:42-46 | A rejected attached day aborts the parse with that error. |
| `SampleCommandLine.NextWorkDayFails` | GetOpt/GetOpt.cs:72-79 | A rejected day in the next token aborts the parse with that error. |
| `SampleCommandLine.LongWorkDayRejected` | GetOpt/GetOpt.cs:103-108 | A rejected long day makes the long option fail with that error. |
| `SampleCommandLine.LongWorkDayFails` | GetOpt/GetOpt.cs:35-40 | A rejected long day aborts the parse with that error. |
| `SampleCommandLine.SaturdayOutOfRangeShort` | GetOptTests/WorkDayTests.cs:60 | `-wSaturday` fails as out of range on `-w`. |
| `SampleCommandLine.SundayOutOfRangeNext` | GetOptTests/WorkDayTests.cs:61 | `-w Sunday` fails as out of range on `-w`. |
| `SampleCommandLine.MisspelledDayShort` | GetOptTests/WorkDayTests.cs:74 | `-wMOnday` fails as a type mismatch on `-w`. |
| `SampleCommandLine.LongDayOutOfRange` | GetOpt/GetOpt.cs:126-139 | `--work-day=` with a day outside Monday to Friday fails as out of range on `--work-day`. |
| `SampleCommandLine.SundayOutOfRangeLong` | GetOptTests/WorkDayTests.cs:62 | `--work-day=Sunday` fails as out of range on `--work-day`. |
| `SampleCommandLine.UnknownLetter` | GetOpt/GetOpt.cs:58-63 | `-v -z` fails as unknown option `-z`. |

## Left out

- Type conversion by `Convert.ChangeType` under a culture is not modelled; it is a foreign call. Conversion is the parameter `conv`, which maps a type name and a text to an optional integer. Every argument value is therefore an `int`. Floating-point types such as `double` are covered only through whatever `conv` returns.
- `ToUpper` under the parser's culture in `Parameters` is a parameter `toUpper`, and the `Culture` property is not modelled.
- The culture-sensitive `StartsWith("-")` is modelled as an ordinal test of the first character.
- Exception types and message texts are not modelled. An error is its `GetOptError` kind plus the option as written (`-c` or `--name`).
- `Tag`, the regex and custom validators, the property setters, and the attribute-based binder are not part of this model.
- The newer `GetOpt.Parse` entry point is not part of this model. That includes its `--name value` form, used by the first test of GetOptTests/WorkDayTests.cs, and the host-name option of the standard definitions. The demo program and debug `ToString` output are not part of this model either.
- `GetOpt.ArgumentList` requires the definitions to have unique names. In the source, `SingleOrDefault` throws only when a name shared by two definitions is actually looked up on the command line. Requiring uniqueness is a choice of this model. It also excludes inputs the source parses without error, such as two definitions sharing `x` with the command line `-v`. Nothing in the source guarantees the precondition. `ArgumentList` accepts any sequence of definitions, and an `OptionDefinitionList` can hold a duplicate after a rejected `Add`, `Insert` or `SetAt`. Under the precondition, the parser's lookup is proved equal to `SingleOrDefault` (`GetOpt.FindIsSingleOrDefault`).
- `GetOpt.ParseShortOption` returns the options it found and whether it consumed the next token. The source instead appends to the shared result and advances `ref i`. `GetOpt.ArgumentList` does both with the returned values.
- `SampleCommandLine.Convert`: the sample converter reads week-day names, and that is an assumption. The conversion the parser calls on GetOpt/GetOpt.cs:119 is `Convert.ChangeType` from a string to the enum type, and it is not evident that this reads enum names at all. If it does not, the working-day command line fails on its first token as a type mismatch (`SampleCommandLine.NamesNotConverted`). The working-day results hold only for a conversion that reads the names.
- Strings are sequences of Unicode code points, whereas a C# `string` is a sequence of UTF-16 code units. For characters outside the Basic Multilingual Plane the model differs from the source. `Definitions.StringToChar` accepts such a character as one short name, where the source sees two code units and throws. A cluster holding such a character, for example U+1F600 after the dash, is read as one letter, where the source looks up two surrogate halves.
- `SampleCommandLine.WeekDayValue`: the `WeekDay` enum is not part of this model. Its values are taken as Sunday = 0 to Saturday = 6, so Monday to Friday is 1 to 5.
- `SampleCommandLine.WorkingDay` holds for every definitions list and converter that agree with the standard ones on the names and days the command line uses (`Lookups`, `WeekDays`). It is not restricted to the standard list alone; `WorkingDayStandard` covers that case.
- The parse flags' other bits are not interpreted, because the source does not interpret them either.
- The bool literal lists of `Parameters` are built but not consumed by the parser modelled here, because the source does not consume them either.

## Findings

| source | as written | input that shows it | evidently intended | confidence | as-written member | corrected member |
|---|---|---|---|---|---|---|
| GetOpt/Models/OptionDefinition.cs:63-66 | The "bounds without an argument type" check reads the properties before they are assigned, so it sees no bounds and never fires. | `new OptionDefinition("verbose", 'v', null, 1)` is accepted, giving a flag with minimum 1. | A flag cannot have a minimum or a maximum. | not executed | `Definitions.CreateAcceptsBoundedFlag` | `Definitions.CreateCheckedRefinesCreate` |
