/** GetOpt/Models/ParseFlags.cs: the `[Flags]` enum of parse options and its bit test. */
module Flags {

  /** The enum's underlying 32-bit integer, as a bit-vector so that `&` has its C# meaning. */
  type ParseFlags = bv32

  const Default: ParseFlags := 0
  const CaseInsensitiveBit: ParseFlags := 1 << 0

  /** `ParseFlagExtensions.CaseInsensitive`: is the case-insensitive bit set? */
  function CaseInsensitive(flags: ParseFlags): (on: bool)
    ensures on <==> flags % 2 == 1
  {
    (flags & CaseInsensitiveBit) != Default
  }

  /** The default flags value is zero and does not ask for case-insensitivity. */
  lemma DefaultIsCaseSensitive()
    ensures Default == 0 && !CaseInsensitive(Default)
  {
  }

  /** The case-insensitive member is bit 0, and testing it succeeds. */
  lemma CaseInsensitiveIsBitZero()
    ensures CaseInsensitiveBit == 1 && CaseInsensitive(CaseInsensitiveBit)
  {
  }

  /** The test looks at bit 0 only: two values that agree on bit 0 agree on the test. */
  lemma OnlyBitZeroMatters(f: ParseFlags, g: ParseFlags)
    requires f & 1 == g & 1
    ensures CaseInsensitive(f) == CaseInsensitive(g)
  {
  }
}
