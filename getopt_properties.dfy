/**
 * Properties of the whole scan of GetOpt/GetOpt.cs: where it may be cut in two, what the
 * end-of-options marker does, how each kind of token is treated, and that an error in any
 * token aborts the call.
 */
module ScanProperties {
  import opened Wrappers
  import opened Errors
  import opened Definitions
  import opened GetOpt

  /** A token the scan never reads as an option: no leading `-`, or a lone `-`. */
  predicate Positional(t: string) {
    !(StartsWithDash(t) && |t| > 1)
  }

  /** No end-of-options marker from position `i` on. */
  predicate NoMarker(args: seq<string>, i: nat) {
    forall k :: i <= k < |args| ==> args[k] != "--"
  }

  /** A place the scan never reaches across: the end, or a token starting with `-`. */
  predicate Boundary(rest: seq<string>) {
    rest == [] || StartsWithDash(rest[0])
  }

  /** The scan at a cluster token that succeeds: its options, then the scan after it (and its argument). */
  lemma ScanClusterStep(args: seq<string>, defs: seq<OptionDefinition>, conv: Converter, i: nat, c: Cluster)
    requires i < |args| && StartsWithDash(args[i]) && |args[i]| > 1 && !StartsWithDoubleDash(args[i])
    requires ParseCluster(args[i], 1, defs, NextOf(args, i), conv) == Success(c)
    ensures c.consumedNext ==> i + 2 <= |args|
    ensures Scan(args, defs, conv, i, false) ==
      Then(Options(c.options), Scan(args, defs, conv, if c.consumedNext then i + 2 else i + 1, false))
  {
  }

  /** The scan at a long option that succeeds: the option, then the scan after it. */
  lemma ScanLongStep(args: seq<string>, defs: seq<OptionDefinition>, conv: Converter, i: nat, o: ParsedOption)
    requires i < |args| && StartsWithDoubleDash(args[i]) && args[i] != "--"
    requires ParseLongOption(args[i], defs, conv) == Success(o)
    ensures Scan(args, defs, conv, i, false) == Then(Options([o]), Scan(args, defs, conv, i + 1, false))
  {
  }

  /** The scan at a positional token: a non-option, then the scan after it. */
  lemma ScanPositionalStep(args: seq<string>, defs: seq<OptionDefinition>, conv: Converter, i: nat)
    requires i < |args| && Positional(args[i])
    ensures Scan(args, defs, conv, i, false) == Then(NonOption(args[i]), Scan(args, defs, conv, i + 1, false))
  {
  }

  /** A cluster token that fails ends the scan with that failure. */
  lemma ScanClusterFails(args: seq<string>, defs: seq<OptionDefinition>, conv: Converter, i: nat, e: ParseError)
    requires i < |args| && StartsWithDash(args[i]) && |args[i]| > 1 && !StartsWithDoubleDash(args[i])
    requires ParseCluster(args[i], 1, defs, NextOf(args, i), conv) == Failure(e)
    ensures Scan(args, defs, conv, i, false) == Failure(e)
  {
  }

  /** A long option that fails ends the scan with that failure. */
  lemma ScanLongFails(args: seq<string>, defs: seq<OptionDefinition>, conv: Converter, i: nat, e: ParseError)
    requires i < |args| && StartsWithDoubleDash(args[i]) && args[i] != "--"
    requires ParseLongOption(args[i], defs, conv) == Failure(e)
    ensures Scan(args, defs, conv, i, false) == Failure(e)
  {
  }

  /** The scan depends only on the tokens from its position on. */
  lemma {:induction false} ScanShift(pre: seq<string>, rest: seq<string>, defs: seq<OptionDefinition>, conv: Converter, k: nat, b: bool)
    requires k <= |rest|
    ensures Scan(pre + rest, defs, conv, |pre| + k, b) == Scan(rest, defs, conv, k, b)
    decreases |rest| - k
  {
    var args := pre + rest;
    if k < |rest| {
      assert args[|pre| + k] == rest[k];
      if k + 1 < |rest| {
        assert args[|pre| + k + 1] == rest[k + 1];
      }
      assert NextOf(args, |pre| + k) == NextOf(rest, k);
      ScanShift(pre, rest, defs, conv, k + 1, true);
      ScanShift(pre, rest, defs, conv, k + 1, false);
      if k + 2 <= |rest| {
        ScanShift(pre, rest, defs, conv, k + 2, false);
      }
    }
  }

  /**
   * Before a boundary and with no marker on the way, the scan of `pre + rest` is the scan of
   * `pre` followed by the scan of `rest`: no short option of `pre` can take `rest`'s first token.
   */
  lemma {:induction false} ScanSplit(pre: seq<string>, rest: seq<string>, defs: seq<OptionDefinition>, conv: Converter, i: nat, b: bool)
    requires i <= |pre|
    requires b || NoMarker(pre, i)
    requires Boundary(rest)
    ensures Scan(pre + rest, defs, conv, i, b) == Then(Scan(pre, defs, conv, i, b), Scan(pre + rest, defs, conv, |pre|, b))
    decreases |pre| - i
  {
    var args := pre + rest;
    if i == |pre| {
      ThenEmpty(Scan(args, defs, conv, i, b));
    } else {
      var argument := pre[i];
      assert args[i] == argument;
      if i + 1 < |pre| {
        assert args[i + 1] == pre[i + 1];
      } else if rest != [] {
        assert args[i + 1] == rest[0];
      }
      assert NextOf(args, i) == NextOf(pre, i);
      var tail := Scan(args, defs, conv, |pre|, b);
      if b {
        ScanSplit(pre, rest, defs, conv, i + 1, true);
        ThenAssociative(NonOption(argument), Scan(pre, defs, conv, i + 1, true), tail);
      } else if StartsWithDoubleDash(argument) {
        ScanSplit(pre, rest, defs, conv, i + 1, false);
        match ParseLongOption(argument, defs, conv)
        case Failure(_) =>
        case Success(o) =>
          ThenAssociative(Options([o]), Scan(pre, defs, conv, i + 1, false), tail);
      } else if StartsWithDash(argument) && |argument| > 1 {
        match ParseCluster(argument, 1, defs, NextOf(pre, i), conv)
        case Failure(_) =>
        case Success(c) =>
          var resume := if c.consumedNext then i + 2 else i + 1;
          ScanSplit(pre, rest, defs, conv, resume, false);
          ThenAssociative(Options(c.options), Scan(pre, defs, conv, resume, false), tail);
      } else {
        ScanSplit(pre, rest, defs, conv, i + 1, false);
        ThenAssociative(NonOption(argument), Scan(pre, defs, conv, i + 1, false), tail);
      }
    }
  }

  /** The parse of a list cut at a boundary, with no marker in the first part. */
  lemma ParseConcat(pre: seq<string>, rest: seq<string>, defs: seq<OptionDefinition>, conv: Converter)
    requires NoMarker(pre, 0) && Boundary(rest)
    ensures Parse(pre + rest, defs, conv) == Then(Parse(pre, defs, conv), Parse(rest, defs, conv))
  {
    ScanSplit(pre, rest, defs, conv, 0, false);
    ScanShift(pre, rest, defs, conv, 0, false);
  }

  /** After the marker every token is a non-option, verbatim and in order. */
  lemma {:induction false} AfterEndOfOptions(args: seq<string>, defs: seq<OptionDefinition>, conv: Converter, i: nat)
    requires i <= |args|
    ensures Scan(args, defs, conv, i, true) == Success(ParsedArguments([], args[i..]))
    decreases |args| - i
  {
    if i < |args| {
      assert Scan(args, defs, conv, i, true) == Then(NonOption(args[i]), Scan(args, defs, conv, i + 1, true));
      AfterEndOfOptions(args, defs, conv, i + 1);
      assert args[i..] == [args[i]] + args[i + 1..];
      var none: seq<ParsedOption> := [];
      assert none + none == none;
    } else {
      assert args[i..] == [];
    }
  }

  /**
   * The first `--` appears in neither list; everything after it, a second `--` and tokens
   * that look like options included, is a non-option.
   */
  lemma EndOfOptionsMarker(pre: seq<string>, post: seq<string>, defs: seq<OptionDefinition>, conv: Converter)
    requires NoMarker(pre, 0)
    ensures Parse(pre + ["--"] + post, defs, conv) == Then(Parse(pre, defs, conv), Success(ParsedArguments([], post)))
  {
    var rest := ["--"] + post;
    assert pre + ["--"] + post == pre + rest;
    ParseConcat(pre, rest, defs, conv);
    AfterEndOfOptions(rest, defs, conv, 1);
    assert rest[1..] == post;
  }

  /** A list of positional tokens only: no options, and the non-options are the list itself. */
  lemma {:induction false} AllPositional(args: seq<string>, defs: seq<OptionDefinition>, conv: Converter, i: nat)
    requires i <= |args|
    requires forall k :: i <= k < |args| ==> Positional(args[k])
    ensures Scan(args, defs, conv, i, false) == Success(ParsedArguments([], args[i..]))
    decreases |args| - i
  {
    if i < |args| {
      ScanPositionalStep(args, defs, conv, i);
      AllPositional(args, defs, conv, i + 1);
      assert args[i..] == [args[i]] + args[i + 1..];
      var none: seq<ParsedOption> := [];
      assert none + none == none;
    } else {
      assert args[i..] == [];
    }
  }

  /** If no token starts with `-`, nothing is an option and the input comes back in order. */
  lemma NoDashTokens(args: seq<string>, defs: seq<OptionDefinition>, conv: Converter)
    requires forall k :: 0 <= k < |args| ==> !StartsWithDash(args[k])
    ensures Parse(args, defs, conv) == Success(ParsedArguments([], args))
  {
    AllPositional(args, defs, conv, 0);
    assert args[0..] == args;
  }

  /** A lone `-`, an empty string, or any token without a leading `-` is a non-option. */
  lemma PositionalToken(t: string, post: seq<string>, defs: seq<OptionDefinition>, conv: Converter)
    requires Positional(t)
    ensures Parse([t] + post, defs, conv) == Then(NonOption(t), Parse(post, defs, conv))
  {
    assert ([t] + post)[0] == t;
    ScanShift([t], post, defs, conv, 0, false);
  }

  /** A long option is one token: it never takes the next one. */
  lemma LongToken(a: string, post: seq<string>, defs: seq<OptionDefinition>, conv: Converter)
    requires StartsWithDoubleDash(a) && a != "--"
    ensures Parse([a] + post, defs, conv) ==
      match ParseLongOption(a, defs, conv)
      case Failure(e) => Failure(e)
      case Success(o) => Then(Options([o]), Parse(post, defs, conv))
  {
    assert ([a] + post)[0] == a;
    ScanShift([a], post, defs, conv, 0, false);
  }

  /**
   * A short cluster whose last letter takes the following token: that token is skipped and
   * never becomes a non-option; a cluster that does not take it leaves it to the scan.
   */
  lemma ClusterToken(a: string, next: string, post: seq<string>, defs: seq<OptionDefinition>, conv: Converter)
    requires StartsWithDash(a) && |a| > 1 && !StartsWithDoubleDash(a)
    requires !StartsWithDash(next)
    ensures var args := [a, next] + post;
      match ParseCluster(a, 1, defs, Some(next), conv)
      case Failure(e) => Parse(args, defs, conv) == Failure(e)
      case Success(c) =>
        (c.consumedNext ==> Parse(args, defs, conv) == Then(Options(c.options), Parse(post, defs, conv))) &&
        (!c.consumedNext ==> Parse(args, defs, conv) == Then(Options(c.options), Parse([next] + post, defs, conv)))
  {
    var args := [a, next] + post;
    assert args[0] == a && args[1] == next;
    assert NextOf(args, 0) == Some(next);
    assert args == [a] + ([next] + post);
    ScanShift([a], [next] + post, defs, conv, 0, false);
    assert args == [a, next] + post;
    ScanShift([a, next], post, defs, conv, 0, false);
  }

  /**
   * An argument-taking short option at the end of its token, followed by nothing or by a
   * token starting with `-` (`--` and `-1` included), is a must-have-argument error.
   */
  lemma MustHaveWhenNextIsDash(c: char, post: seq<string>, defs: seq<OptionDefinition>, conv: Converter)
    requires c != '-'
    requires FindShort(defs, c).Some? && FindShort(defs, c).value.HasArgument()
    requires Boundary(post)
    ensures Parse([['-', c]] + post, defs, conv) == Failure(ParseError(MustHaveArgument, ['-', c]))
  {
    var args := [['-', c]] + post;
    assert args[0] == ['-', c];
    if post != [] {
      assert args[1] == post[0];
    }
    assert NextOf(args, 0) == None;
    var d := FindShort(defs, c).value;
    assert ParseCluster(['-', c], 1, defs, None, conv) == TakeArgument(['-', c], 1, d, None, conv);
  }

  /**
   * An error aborts the whole call: once a token at a boundary fails, the parse fails,
   * with that token's error when nothing before it failed.
   */
  lemma ErrorAborts(pre: seq<string>, rest: seq<string>, defs: seq<OptionDefinition>, conv: Converter)
    requires NoMarker(pre, 0) && Boundary(rest)
    requires Parse(rest, defs, conv).Failure?
    ensures Parse(pre + rest, defs, conv).Failure?
    ensures Parse(pre, defs, conv).Success? ==> Parse(pre + rest, defs, conv) == Parse(rest, defs, conv)
  {
    ParseConcat(pre, rest, defs, conv);
  }

  /** Before any marker, every non-option is a positional token: option-like tokens never land there. */
  lemma {:induction false} NonOptionsPositional(args: seq<string>, defs: seq<OptionDefinition>, conv: Converter, i: nat)
    requires i <= |args| && NoMarker(args, i)
    requires Scan(args, defs, conv, i, false).Success?
    ensures forall n :: n in Scan(args, defs, conv, i, false).value.nonOptions ==> Positional(n)
    decreases |args| - i
  {
    if i < |args| {
      var argument := args[i];
      if StartsWithDoubleDash(argument) {
        NonOptionsPositional(args, defs, conv, i + 1);
      } else if StartsWithDash(argument) && |argument| > 1 {
        var c := ParseCluster(argument, 1, defs, NextOf(args, i), conv).value;
        NonOptionsPositional(args, defs, conv, if c.consumedNext then i + 2 else i + 1);
      } else {
        NonOptionsPositional(args, defs, conv, i + 1);
      }
    }
  }

  /** Every parsed option is for one of the given definitions. */
  lemma {:induction false} OptionsFromDefinitions(args: seq<string>, defs: seq<OptionDefinition>, conv: Converter, i: nat, b: bool)
    requires i <= |args|
    requires Scan(args, defs, conv, i, b).Success?
    ensures forall o :: o in Scan(args, defs, conv, i, b).value.options ==> o.definition in defs
    decreases |args| - i
  {
    if i < |args| {
      var argument := args[i];
      if b || argument == "--" {
        OptionsFromDefinitions(args, defs, conv, i + 1, true);
      } else if StartsWithDoubleDash(argument) {
        OptionsFromDefinitions(args, defs, conv, i + 1, false);
      } else if StartsWithDash(argument) && |argument| > 1 {
        var c := ParseCluster(argument, 1, defs, NextOf(args, i), conv).value;
        ClusterDefinitions(argument, 1, defs, NextOf(args, i), conv, c);
        OptionsFromDefinitions(args, defs, conv, if c.consumedNext then i + 2 else i + 1, false);
      } else {
        OptionsFromDefinitions(args, defs, conv, i + 1, false);
      }
    }
  }
}
