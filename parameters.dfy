/** GetOpt/Models/Parameters.cs: parse-wide settings (flags and the boolean literal sets). */
module Params {
  import opened Wrappers
  import opened Flags

  /** The literals accepted for `true` and `false` when the caller supplies none. */
  const DefaultTrueArguments: seq<string> := ["true", "yes", "on", "1"]
  const DefaultFalseArguments: seq<string> := ["false", "no", "off", "0"]

  datatype Parameters = Parameters(
    options: ParseFlags,
    trueArguments: seq<string>,
    falseArguments: seq<string>)

  /** `Select(a => a.ToUpper(Culture))`: the culture-aware upper-casing is the parameter `toUpper`. */
  function MapUpper(literals: seq<string>, toUpper: string -> string): (r: seq<string>)
    ensures |r| == |literals|
    ensures forall k :: 0 <= k < |literals| ==> r[k] == toUpper(literals[k])
  {
    if literals == [] then [] else [toUpper(literals[0])] + MapUpper(literals[1..], toUpper)
  }

  /**
   * The constructor: missing literal lists fall back to the defaults and, under the
   * case-insensitive flag, both lists are replaced by their upper-cased forms.
   */
  function NewParameters(
    options: ParseFlags,
    trueArguments: Option<seq<string>>,
    falseArguments: Option<seq<string>>,
    toUpper: string -> string): (p: Parameters)
    ensures p.options == options
    ensures !CaseInsensitive(options) ==>
      p.trueArguments == trueArguments.GetOr(DefaultTrueArguments) &&
      p.falseArguments == falseArguments.GetOr(DefaultFalseArguments)
    ensures CaseInsensitive(options) ==>
      p.trueArguments == MapUpper(trueArguments.GetOr(DefaultTrueArguments), toUpper) &&
      p.falseArguments == MapUpper(falseArguments.GetOr(DefaultFalseArguments), toUpper)
  {
    var t := trueArguments.GetOr(DefaultTrueArguments);
    var f := falseArguments.GetOr(DefaultFalseArguments);
    if (options & CaseInsensitiveBit) != Default then
      Parameters(options, MapUpper(t, toUpper), MapUpper(f, toUpper))
    else
      Parameters(options, t, f)
  }

  /** The two default literal lists have no literal in common. */
  lemma DefaultLiteralsDisjoint()
    ensures forall k, m :: 0 <= k < |DefaultTrueArguments| && 0 <= m < |DefaultFalseArguments| ==>
      DefaultTrueArguments[k] != DefaultFalseArguments[m]
  {
  }

  /** Without literals from the caller and without the flag, the defaults are used in their order. */
  lemma DefaultsWhenNothingSupplied(toUpper: string -> string)
    ensures NewParameters(Default, None, None, toUpper) ==
      Parameters(0, ["true", "yes", "on", "1"], ["false", "no", "off", "0"])
  {
  }

  /** Under the case-insensitive flag each literal is upper-cased in place: same length, same order. */
  lemma {:induction false} CaseInsensitiveUpperCases(options: ParseFlags, trueLiterals: seq<string>, falseLiterals: seq<string>,
                                                     toUpper: string -> string)
    requires CaseInsensitive(options)
    ensures var p := NewParameters(options, Some(trueLiterals), Some(falseLiterals), toUpper);
      && |p.trueArguments| == |trueLiterals|
      && |p.falseArguments| == |falseLiterals|
      && (forall k :: 0 <= k < |trueLiterals| ==> p.trueArguments[k] == toUpper(trueLiterals[k]))
      && (forall k :: 0 <= k < |falseLiterals| ==> p.falseArguments[k] == toUpper(falseLiterals[k]))
  {
  }
}
