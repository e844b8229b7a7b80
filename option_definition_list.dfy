/**
 * GetOpt/Models/OptionDefinitionList.cs: an observable list of option definitions that
 * rejects duplicated long or short names whenever it is built, added to or replaced into.
 */
module DefinitionLists {
  import opened Wrappers
  import opened Definitions

  /** What the list and its indexers throw. */
  datatype ListError =
    | DuplicateDefinitions(names: seq<string>)  // InvalidOperationException, the duplicated names in message order
    | IndexOutOfRange                           // ArgumentOutOfRangeException from the underlying collection
    | NullIndex                                 // ArgumentNullException from the long-name indexer
    | InvalidIndex                              // ArgumentException: a '-'-prefixed long name or the null char
    | MoreThanOneMatch                          // InvalidOperationException from SingleOrDefault

  /** No two entries share a non-null long name, and no two share a short name other than '\0'. */
  predicate Unique(defs: seq<OptionDefinition>) {
    forall i, j :: 0 <= i < j < |defs| ==>
      && (defs[i].longName.Some? ==> defs[i].longName != defs[j].longName)
      && (defs[i].shortName != NoShortName ==> defs[i].shortName != defs[j].shortName)
  }

  /** `d` shares no name with any entry of `defs`. */
  predicate NoClash(defs: seq<OptionDefinition>, d: OptionDefinition) {
    forall e :: e in defs ==>
      && (d.longName.Some? ==> e.longName != d.longName)
      && (d.shortName != NoShortName ==> e.shortName != d.shortName)
  }

  predicate Distinct(xs: seq<string>) {
    forall i, j :: 0 <= i < j < |xs| ==> xs[i] != xs[j]
  }

  // ---------------------------------------------------------------------------
  // GetDuplicates: GroupBy(l => l).Where(g => g.Count() > 1).Select(g => g.Key)
  // ---------------------------------------------------------------------------

  /** The group keys of `xs`: each value once, in order of first occurrence. */
  function GroupKeys(xs: seq<string>): (r: seq<string>)
    ensures forall x :: x in r <==> x in xs
    ensures Distinct(r)
  {
    if xs == [] then []
    else
      var init := xs[..|xs| - 1];
      var last := xs[|xs| - 1];
      assert xs == init + [last];
      var keys := GroupKeys(init);
      if last in keys then keys else keys + [last]
  }

  /** The keys among `keys` whose group in `xs` has more than one element. */
  function RepeatedKeys(keys: seq<string>, xs: seq<string>): (r: seq<string>)
    ensures forall x :: x in r <==> x in keys && multiset(xs)[x] > 1
    ensures Distinct(keys) ==> Distinct(r)
  {
    if keys == [] then []
    else
      var rest := RepeatedKeys(keys[1..], xs);
      if multiset(xs)[keys[0]] > 1 then
        assert Distinct(keys) ==> keys[0] !in keys[1..];
        [keys[0]] + rest
      else rest
  }

  /** The values that occur more than once in `xs`, each once. */
  function GetDuplicates(xs: seq<string>): (r: seq<string>)
    ensures forall x :: x in r <==> multiset(xs)[x] > 1
    ensures Distinct(r)
  {
    RepeatedKeys(GroupKeys(xs), xs)
  }

  // ---------------------------------------------------------------------------
  // CheckForDuplicates
  // ---------------------------------------------------------------------------

  /** `$"--{l.LongName}"` for a definition with a long name. */
  function LongKey(d: OptionDefinition): Option<string> {
    if d.longName.Some? then Some("--" + d.longName.value) else None
  }

  /** `$"-{d.ShortName}"` for a definition with a short name. */
  function ShortKey(d: OptionDefinition): Option<string> {
    if d.shortName != NoShortName then Some(['-', d.shortName]) else None
  }

  /** `Where(has key).Select(key)`: the keys of the definitions that have one, in list order. */
  function Keys(defs: seq<OptionDefinition>, key: OptionDefinition -> Option<string>): (r: seq<string>)
    ensures forall x :: x in r <==> exists i :: 0 <= i < |defs| && key(defs[i]) == Some(x)
  {
    if defs == [] then []
    else
      var rest := Keys(defs[1..], key);
      assert forall x :: (exists i :: 0 <= i < |defs| - 1 && key(defs[1..][i]) == Some(x)) <==>
                         (exists i :: 1 <= i < |defs| && key(defs[i]) == Some(x)) by {
        forall x | exists i :: 1 <= i < |defs| && key(defs[i]) == Some(x)
          ensures exists i :: 0 <= i < |defs| - 1 && key(defs[1..][i]) == Some(x)
        {
          var i :| 1 <= i < |defs| && key(defs[i]) == Some(x);
          assert key(defs[1..][i - 1]) == Some(x);
        }
      }
      (if key(defs[0]).Some? then [key(defs[0]).value] else []) + rest
  }

  /** Two different entries of `defs` have the key `x`. */
  ghost predicate KeyShared(defs: seq<OptionDefinition>, key: OptionDefinition -> Option<string>, x: string) {
    exists i, j :: 0 <= i < j < |defs| && key(defs[i]) == Some(x) && key(defs[j]) == Some(x)
  }

  /** The duplicated `--name` keys. */
  function LongDuplicates(defs: seq<OptionDefinition>): (r: seq<string>)
    ensures Distinct(r)
    ensures forall x :: x in r ==> |x| >= 2 && x[..2] == "--"
  {
    GetDuplicates(Keys(defs, LongKey))
  }

  /** The duplicated `-c` keys. */
  function ShortDuplicates(defs: seq<OptionDefinition>): (r: seq<string>)
    ensures Distinct(r)
    ensures forall x :: x in r ==> |x| == 2 && x[0] == '-' && x[1] != NoShortName
  {
    GetDuplicates(Keys(defs, ShortKey))
  }

  /** `CheckForDuplicates`: long-name duplicates are listed before short-name duplicates. */
  function CheckForDuplicates(defs: seq<OptionDefinition>): (r: Option<ListError>)
    ensures r.Some? ==> r.value.DuplicateDefinitions? && |r.value.names| > 0
    ensures r.Some? ==> r.value.names == LongDuplicates(defs) + ShortDuplicates(defs)
  {
    var duplicates := LongDuplicates(defs) + ShortDuplicates(defs);
    if duplicates == [] then None else Some(DuplicateDefinitions(duplicates))
  }

  /** How `KeyShared` splits over the first entry and the rest of the list. */
  lemma KeySharedCons(defs: seq<OptionDefinition>, key: OptionDefinition -> Option<string>, x: string)
    requires defs != []
    ensures KeyShared(defs, key, x) <==>
      (key(defs[0]) == Some(x) && x in Keys(defs[1..], key)) || KeyShared(defs[1..], key, x)
  {
    var tail := defs[1..];
    if KeyShared(tail, key, x) {
      var i, j :| 0 <= i < j < |tail| && key(tail[i]) == Some(x) && key(tail[j]) == Some(x);
      assert key(defs[i + 1]) == Some(x) && key(defs[j + 1]) == Some(x);
    }
    if key(defs[0]) == Some(x) && x in Keys(tail, key) {
      var j :| 0 <= j < |tail| && key(tail[j]) == Some(x);
      assert key(defs[j + 1]) == Some(x);
    }
    if KeyShared(defs, key, x) {
      var i, j :| 0 <= i < j < |defs| && key(defs[i]) == Some(x) && key(defs[j]) == Some(x);
      assert key(tail[j - 1]) == Some(x);
      if i > 0 {
        assert key(tail[i - 1]) == Some(x);
      }
    }
  }

  /** A key occurs more than once in the key list exactly when two entries share it. */
  lemma {:induction false} KeyCount(defs: seq<OptionDefinition>, key: OptionDefinition -> Option<string>, x: string)
    ensures multiset(Keys(defs, key))[x] > 1 <==> KeyShared(defs, key, x)
    decreases |defs|
  {
    if defs != [] {
      var rest := Keys(defs[1..], key);
      var head := if key(defs[0]).Some? then [key(defs[0]).value] else [];
      assert Keys(defs, key) == head + rest;
      assert multiset(Keys(defs, key))[x] == multiset(head)[x] + multiset(rest)[x];
      assert x in rest <==> multiset(rest)[x] > 0;
      KeyCount(defs[1..], key, x);
      KeySharedCons(defs, key, x);
    }
  }

  /** Prefixing with "--" keeps long names apart. */
  lemma LongKeyInjective(a: OptionDefinition, b: OptionDefinition)
    requires LongKey(a).Some? && LongKey(a) == LongKey(b)
    ensures a.longName == b.longName
  {
    assert a.longName.value == LongKey(a).value[2..];
    assert b.longName.value == LongKey(b).value[2..];
  }

  /** No key is repeated exactly when no two entries share it. */
  lemma NoRepeatedKey(defs: seq<OptionDefinition>, key: OptionDefinition -> Option<string>)
    ensures GetDuplicates(Keys(defs, key)) == [] <==>
      forall i, j :: 0 <= i < j < |defs| && key(defs[i]).Some? ==> key(defs[i]) != key(defs[j])
  {
    var dups := GetDuplicates(Keys(defs, key));
    if dups != [] {
      var x := dups[0];
      KeyCount(defs, key, x);
      var i, j :| 0 <= i < j < |defs| && key(defs[i]) == Some(x) && key(defs[j]) == Some(x);
    } else {
      forall i, j | 0 <= i < j < |defs| && key(defs[i]).Some?
        ensures key(defs[i]) != key(defs[j])
      {
        var x := key(defs[i]).value;
        KeyCount(defs, key, x);
        assert x !in dups;
      }
    }
  }

  /** The check finds nothing exactly when the list is unique. */
  lemma CheckForDuplicatesIffNotUnique(defs: seq<OptionDefinition>)
    ensures CheckForDuplicates(defs).None? <==> Unique(defs)
  {
    NoRepeatedKey(defs, LongKey);
    NoRepeatedKey(defs, ShortKey);
    if Unique(defs) {
      forall i, j | 0 <= i < j < |defs| && LongKey(defs[i]).Some?
        ensures LongKey(defs[i]) != LongKey(defs[j])
      {
        if LongKey(defs[i]) == LongKey(defs[j]) { LongKeyInjective(defs[i], defs[j]); }
      }
    }
  }

  /**
   * A missing long name and the null short name are never keys: an entry without a long
   * name adds no long key and so no long duplicate, and likewise for the short name,
   * wherever in the list it stands.
   */
  lemma {:induction false} MissingNameAddsNoKey(pre: seq<OptionDefinition>, d: OptionDefinition, post: seq<OptionDefinition>)
    ensures d.longName.None? ==>
      Keys(pre + [d] + post, LongKey) == Keys(pre + post, LongKey) &&
      LongDuplicates(pre + [d] + post) == LongDuplicates(pre + post)
    ensures d.shortName == NoShortName ==>
      Keys(pre + [d] + post, ShortKey) == Keys(pre + post, ShortKey) &&
      ShortDuplicates(pre + [d] + post) == ShortDuplicates(pre + post)
    decreases |pre|
  {
    if pre == [] {
      assert pre + [d] + post == [d] + post && ([d] + post)[1..] == post && pre + post == post;
    } else {
      MissingNameAddsNoKey(pre[1..], d, post);
      assert (pre + [d] + post)[0] == pre[0] && (pre + [d] + post)[1..] == pre[1..] + [d] + post;
      assert (pre + post)[0] == pre[0] && (pre + post)[1..] == pre[1..] + post;
    }
  }

  /** A long name that two entries share is reported as `--name`. */
  lemma SharedLongNameReported(defs: seq<OptionDefinition>, i: nat, j: nat)
    requires i < j < |defs|
    requires defs[i].longName.Some? && defs[i].longName == defs[j].longName
    ensures "--" + defs[i].longName.value in LongDuplicates(defs)
  {
    var x := "--" + defs[i].longName.value;
    assert LongKey(defs[i]) == Some(x) && LongKey(defs[j]) == Some(x);
    assert KeyShared(defs, LongKey, x);
    KeyCount(defs, LongKey, x);
  }

  /** A short name that two entries share is reported as `-c`. */
  lemma SharedShortNameReported(defs: seq<OptionDefinition>, i: nat, j: nat)
    requires i < j < |defs|
    requires defs[i].shortName != NoShortName && defs[i].shortName == defs[j].shortName
    ensures ['-', defs[i].shortName] in ShortDuplicates(defs)
  {
    var x := ['-', defs[i].shortName];
    assert ShortKey(defs[i]) == Some(x) && ShortKey(defs[j]) == Some(x);
    assert KeyShared(defs, ShortKey, x);
    KeyCount(defs, ShortKey, x);
  }

  /** Uniqueness is kept by an added entry exactly when it clashes with none already there. */
  lemma UniqueAppend(defs: seq<OptionDefinition>, d: OptionDefinition)
    requires Unique(defs)
    ensures Unique(defs + [d]) <==> NoClash(defs, d)
  {
    var s := defs + [d];
    if Unique(s) {
      forall e | e in defs
        ensures (d.longName.Some? ==> e.longName != d.longName) && (d.shortName != NoShortName ==> e.shortName != d.shortName)
      {
        var k :| 0 <= k < |defs| && defs[k] == e;
        assert s[k] == e && s[|defs|] == d;
      }
    }
    if NoClash(defs, d) {
      forall i, j | 0 <= i < j < |s|
        ensures (s[i].longName.Some? ==> s[i].longName != s[j].longName)
        ensures (s[i].shortName != NoShortName ==> s[i].shortName != s[j].shortName)
      {
        if j == |defs| { assert s[i] in defs; }
      }
    }
  }

  /** Removing an entry keeps a unique list unique. */
  lemma UniqueRemove(defs: seq<OptionDefinition>, k: nat)
    requires Unique(defs) && k < |defs|
    ensures Unique(defs[..k] + defs[k + 1..])
  {
    var s := defs[..k] + defs[k + 1..];
    forall i, j | 0 <= i < j < |s|
      ensures (s[i].longName.Some? ==> s[i].longName != s[j].longName)
      ensures (s[i].shortName != NoShortName ==> s[i].shortName != s[j].shortName)
    {
      var i' := if i < k then i else i + 1;
      var j' := if j < k then j else j + 1;
      assert s[i] == defs[i'] && s[j] == defs[j'];
    }
  }

  /** Inserting an entry that clashes with none keeps a unique list unique. */
  lemma UniqueInsert(defs: seq<OptionDefinition>, k: nat, d: OptionDefinition)
    requires Unique(defs) && NoClash(defs, d) && k <= |defs|
    ensures Unique(defs[..k] + [d] + defs[k..])
  {
    var s := defs[..k] + [d] + defs[k..];
    forall i, j | 0 <= i < j < |s|
      ensures (s[i].longName.Some? ==> s[i].longName != s[j].longName)
      ensures (s[i].shortName != NoShortName ==> s[i].shortName != s[j].shortName)
    {
      if i == k {
        assert s[j] == defs[j - 1];
      } else if j == k {
        assert s[i] == defs[i];
      } else {
        var i' := if i < k then i else i - 1;
        var j' := if j < k then j else j - 1;
        assert s[i] == defs[i'] && s[j] == defs[j'];
      }
    }
  }

  /** Replacing an entry keeps uniqueness exactly when the new entry clashes with none of the others. */
  lemma UniqueReplace(defs: seq<OptionDefinition>, k: nat, d: OptionDefinition)
    requires Unique(defs) && k < |defs|
    ensures Unique(defs[k := d]) <==> NoClash(defs[..k] + defs[k + 1..], d)
  {
    var rest := defs[..k] + defs[k + 1..];
    var s := defs[k := d];
    UniqueRemove(defs, k);
    assert s == rest[..k] + [d] + rest[k..];
    if NoClash(rest, d) {
      UniqueInsert(rest, k, d);
    }
    if Unique(s) {
      forall e | e in rest
        ensures (d.longName.Some? ==> e.longName != d.longName) && (d.shortName != NoShortName ==> e.shortName != d.shortName)
      {
        var m :| 0 <= m < |rest| && rest[m] == e;
        var m' := if m < k then m else m + 1;
        assert s[m'] == e && s[k] == d && m' != k;
      }
    }
  }

  /** An entry of a unique list clashes with none of the others. */
  lemma UniqueEntryNoClash(defs: seq<OptionDefinition>, k: nat)
    requires Unique(defs) && k < |defs|
    ensures NoClash(defs[..k] + defs[k + 1..], defs[k])
  {
    var s := defs[..k] + defs[k + 1..];
    forall e | e in s
      ensures (defs[k].longName.Some? ==> e.longName != defs[k].longName)
      ensures (defs[k].shortName != NoShortName ==> e.shortName != defs[k].shortName)
    {
      var m :| 0 <= m < |s| && s[m] == e;
      if m < k { assert e == defs[m]; } else { assert e == defs[m + 1]; }
    }
  }

  /** `Move` (remove then re-insert) keeps a unique list unique. */
  lemma UniqueMove(defs: seq<OptionDefinition>, oldIndex: nat, newIndex: nat)
    requires Unique(defs) && oldIndex < |defs| && newIndex < |defs|
    ensures var t := defs[..oldIndex] + defs[oldIndex + 1..];
      Unique(t[..newIndex] + [defs[oldIndex]] + t[newIndex..])
  {
    UniqueRemove(defs, oldIndex);
    UniqueEntryNoClash(defs, oldIndex);
    UniqueInsert(defs[..oldIndex] + defs[oldIndex + 1..], newIndex, defs[oldIndex]);
  }

  // ---------------------------------------------------------------------------
  // Indexer lookups
  // ---------------------------------------------------------------------------

  /** The entries whose long name is `name` (`d.LongName == longName`). */
  function WithLongName(defs: seq<OptionDefinition>, name: string): (r: seq<OptionDefinition>)
  {
    if defs == [] then []
    else (if defs[0].longName == Some(name) then [defs[0]] else []) + WithLongName(defs[1..], name)
  }

  /** The entries whose short name is `c`, never matching the null char. */
  function WithShortName(defs: seq<OptionDefinition>, c: char): (r: seq<OptionDefinition>)
  {
    if defs == [] then []
    else (if defs[0].shortName != NoShortName && defs[0].shortName == c then [defs[0]] else []) + WithShortName(defs[1..], c)
  }

  /** The long-name matches are exactly the entries with that long name. */
  lemma {:induction false} WithLongNameMembers(defs: seq<OptionDefinition>, name: string)
    ensures forall d :: d in WithLongName(defs, name) <==> d in defs && d.longName == Some(name)
    decreases |defs|
  {
    if defs != [] {
      WithLongNameMembers(defs[1..], name);
      assert defs == [defs[0]] + defs[1..];
    }
  }

  /** The short-name matches are exactly the entries with that short name, the null char excepted. */
  lemma {:induction false} WithShortNameMembers(defs: seq<OptionDefinition>, c: char)
    ensures forall d :: d in WithShortName(defs, c) <==> d in defs && d.shortName != NoShortName && d.shortName == c
    decreases |defs|
  {
    if defs != [] {
      WithShortNameMembers(defs[1..], c);
      assert defs == [defs[0]] + defs[1..];
    }
  }

  /** A list none of whose entries has the long name `name` yields no match. */
  lemma {:induction false} NoLongMatch(defs: seq<OptionDefinition>, name: string)
    requires forall e :: e in defs ==> e.longName != Some(name)
    ensures WithLongName(defs, name) == []
    decreases |defs|
  {
    if defs != [] {
      assert defs[0] in defs;
      NoLongMatch(defs[1..], name);
    }
  }

  /** A list none of whose entries has the short name `c` yields no match. */
  lemma {:induction false} NoShortMatch(defs: seq<OptionDefinition>, c: char)
    requires forall e :: e in defs ==> e.shortName != c
    ensures WithShortName(defs, c) == []
    decreases |defs|
  {
    if defs != [] {
      assert defs[0] in defs;
      NoShortMatch(defs[1..], c);
    }
  }

  /** Once uniqueness holds, a lookup matches at most one entry. */
  lemma {:induction false} AtMostOneMatch(defs: seq<OptionDefinition>, name: string, c: char)
    requires Unique(defs)
    ensures |WithLongName(defs, name)| <= 1
    ensures |WithShortName(defs, c)| <= 1
  {
    if defs != [] {
      var tail := defs[1..];
      assert Unique(tail) by {
        forall i, j | 0 <= i < j < |tail|
          ensures (tail[i].longName.Some? ==> tail[i].longName != tail[j].longName)
          ensures (tail[i].shortName != NoShortName ==> tail[i].shortName != tail[j].shortName)
        {
          assert tail[i] == defs[i + 1] && tail[j] == defs[j + 1];
        }
      }
      AtMostOneMatch(tail, name, c);
      if defs[0].longName == Some(name) {
        forall e | e in tail
          ensures e.longName != Some(name)
        {
          var m :| 0 <= m < |tail| && tail[m] == e;
          assert defs[m + 1] == e;
        }
        NoLongMatch(tail, name);
      }
      if defs[0].shortName != NoShortName && defs[0].shortName == c {
        forall e | e in tail
          ensures e.shortName != c
        {
          var m :| 0 <= m < |tail| && tail[m] == e;
          assert defs[m + 1] == e;
        }
        NoShortMatch(tail, c);
      }
    }
  }

  /** `SingleOrDefault`: no match gives null, one match gives it, more than one throws. */
  function SingleOrDefault(matches: seq<OptionDefinition>): (r: Result<Option<OptionDefinition>, ListError>)
    ensures r.Success? <==> |matches| <= 1
    ensures r.Success? && r.value.Some? ==> matches == [r.value.value]
    ensures r.Success? && r.value.None? ==> matches == []
  {
    if |matches| == 0 then Success(None)
    else if |matches| == 1 then Success(Some(matches[0]))
    else Failure(MoreThanOneMatch)
  }

  // ---------------------------------------------------------------------------
  // The collection
  // ---------------------------------------------------------------------------

  /**
   * The list itself. As in an observable collection, an Add or Replace happens first and
   * the duplicate check runs afterwards from the change handler, so a rejected entry stays
   * in the list; Remove, Move and Reset never run the check.
   */
  class OptionDefinitionList {
    var items: seq<OptionDefinition>

    /** `new OptionDefinitionList()`: the check on an empty list never fails. */
    constructor ()
      ensures items == []
    {
      items := [];
    }

    /** `new OptionDefinitionList(enumerable)`: fails on duplicated names. */
    static method FromSequence(defs: seq<OptionDefinition>) returns (r: Result<OptionDefinitionList, ListError>)
      ensures r.Failure? <==> !Unique(defs)
      ensures r.Failure? ==> Some(r.error) == CheckForDuplicates(defs)
      ensures r.Success? ==> fresh(r.value) && r.value.items == defs
    {
      CheckForDuplicatesIffNotUnique(defs);
      var check := CheckForDuplicates(defs);
      if check.Some? {
        return Failure(check.value);
      }
      var list := new OptionDefinitionList();
      list.items := defs;
      return Success(list);
    }

    /** `ToOptionList`: a null collection gives an empty list. */
    static method ToOptionList(collection: Option<seq<OptionDefinition>>) returns (r: Result<OptionDefinitionList, ListError>)
      ensures collection.None? ==> r.Success? && fresh(r.value) && r.value.items == []
      ensures collection.Some? ==> (r.Failure? <==> !Unique(collection.value))
      ensures collection.Some? && r.Success? ==> fresh(r.value) && r.value.items == collection.value
    {
      if collection.None? {
        var list := new OptionDefinitionList();
        return Success(list);
      }
      r := FromSequence(collection.value);
    }

    /** The long-name indexer `this[string longName]`. */
    function ByLongName(longName: Option<string>): (r: Result<Option<OptionDefinition>, ListError>)
      reads this
      ensures longName.None? ==> r == Failure(NullIndex)
      ensures longName.Some? && StartsWithDash(longName.value) ==> r == Failure(InvalidIndex)
      ensures r.Success? && r.value.Some? ==> r.value.value in items && r.value.value.longName == longName
      ensures r.Success? && r.value.None? ==> forall d :: d in items ==> d.longName != longName
      ensures Unique(items) && longName.Some? && !StartsWithDash(longName.value) ==> r.Success?
      ensures longName.Some? && !StartsWithDash(longName.value) ==>
        (r.Success? <==> |WithLongName(items, longName.value)| <= 1)
      ensures longName.Some? && !StartsWithDash(longName.value) && |WithLongName(items, longName.value)| > 1 ==>
        r == Failure(MoreThanOneMatch)
    {
      if longName.None? then Failure(NullIndex)
      else if StartsWithDash(longName.value) then Failure(InvalidIndex)
      else
        var matches := WithLongName(items, longName.value);
        WithLongNameMembers(items, longName.value);
        if Unique(items) then AtMostOneMatch(items, longName.value, NoShortName); SingleOrDefault(matches)
        else SingleOrDefault(matches)
    }

    /** The short-name indexer `this[char shortName]`. */
    function ByShortName(shortName: char): (r: Result<Option<OptionDefinition>, ListError>)
      reads this
      ensures shortName == NoShortName ==> r == Failure(InvalidIndex)
      ensures r.Success? && r.value.Some? ==> r.value.value in items && r.value.value.shortName == shortName
      ensures r.Success? && r.value.None? ==> forall d :: d in items ==> d.shortName != shortName
      ensures Unique(items) && shortName != NoShortName ==> r.Success?
      ensures shortName != NoShortName ==> (r.Success? <==> |WithShortName(items, shortName)| <= 1)
      ensures shortName != NoShortName && |WithShortName(items, shortName)| > 1 ==> r == Failure(MoreThanOneMatch)
    {
      if shortName == NoShortName then Failure(InvalidIndex)
      else
        var matches := WithShortName(items, shortName);
        WithShortNameMembers(items, shortName);
        if Unique(items) then AtMostOneMatch(items, "", shortName); SingleOrDefault(matches)
        else SingleOrDefault(matches)
    }

    /** `Add`: appends, then checks the whole list. */
    method Add(d: OptionDefinition) returns (err: Option<ListError>)
      modifies this
      ensures items == old(items) + [d]
      ensures err == CheckForDuplicates(items)
      ensures old(Unique(items)) ==> (err.None? <==> NoClash(old(items), d))
    {
      items := items + [d];
      err := CheckForDuplicates(items);
      CheckForDuplicatesIffNotUnique(items);
      if old(Unique(items)) { UniqueAppend(old(items), d); }
    }

    /** `Insert(index, item)`: an Add at a position, checked the same way. */
    method Insert(index: int, d: OptionDefinition) returns (err: Option<ListError>)
      modifies this
      ensures !(0 <= index <= old(|items|)) ==> err == Some(IndexOutOfRange) && items == old(items)
      ensures 0 <= index <= old(|items|) ==>
        items == old(items)[..index] + [d] + old(items)[index..] && err == CheckForDuplicates(items)
      ensures 0 <= index <= old(|items|) && old(Unique(items)) && NoClash(old(items), d) ==> err.None?
    {
      if !(0 <= index <= |items|) {
        return Some(IndexOutOfRange);
      }
      if Unique(items) && NoClash(items, d) { UniqueInsert(items, index, d); }
      items := items[..index] + [d] + items[index..];
      err := CheckForDuplicates(items);
      CheckForDuplicatesIffNotUnique(items);
    }

    /** `this[index] = item`: a Replace, checked after the entry is stored. */
    method SetAt(index: int, d: OptionDefinition) returns (err: Option<ListError>)
      modifies this
      ensures !(0 <= index < old(|items|)) ==> err == Some(IndexOutOfRange) && items == old(items)
      ensures 0 <= index < old(|items|) ==> items == old(items)[index := d] && err == CheckForDuplicates(items)
      ensures 0 <= index < old(|items|) && old(Unique(items)) ==>
        (err.None? <==> NoClash(old(items)[..index] + old(items)[index + 1..], d))
    {
      if !(0 <= index < |items|) {
        return Some(IndexOutOfRange);
      }
      if Unique(items) { UniqueReplace(items, index, d); }
      items := items[index := d];
      err := CheckForDuplicates(items);
      CheckForDuplicatesIffNotUnique(items);
    }

    /** `RemoveAt(index)`: a Remove never runs the check. */
    method RemoveAt(index: int) returns (err: Option<ListError>)
      modifies this
      ensures !(0 <= index < old(|items|)) ==> err == Some(IndexOutOfRange) && items == old(items)
      ensures 0 <= index < old(|items|) ==> err.None? && items == old(items)[..index] + old(items)[index + 1..]
      ensures old(Unique(items)) ==> Unique(items)
    {
      if !(0 <= index < |items|) {
        return Some(IndexOutOfRange);
      }
      if Unique(items) { UniqueRemove(items, index); }
      items := items[..index] + items[index + 1..];
      err := None;
    }

    /**
     * `Move(oldIndex, newIndex)`: never runs the check. The inherited move reads the entry,
     * removes it and then inserts it at `newIndex` of the shortened list; only that insert
     * checks `newIndex`, so a bad `newIndex` throws with the entry already removed.
     */
    method Move(oldIndex: int, newIndex: int) returns (err: Option<ListError>)
      modifies this
      ensures !(0 <= oldIndex < old(|items|)) ==> err == Some(IndexOutOfRange) && items == old(items)
      ensures 0 <= oldIndex < old(|items|) && !(0 <= newIndex < old(|items|)) ==>
        err == Some(IndexOutOfRange) && items == old(items)[..oldIndex] + old(items)[oldIndex + 1..]
      ensures 0 <= oldIndex < old(|items|) && 0 <= newIndex < old(|items|) ==>
        (var t := old(items)[..oldIndex] + old(items)[oldIndex + 1..];
         err.None? && items == t[..newIndex] + [old(items)[oldIndex]] + t[newIndex..])
      ensures old(Unique(items)) ==> Unique(items)
    {
      if !(0 <= oldIndex < |items|) {
        return Some(IndexOutOfRange);
      }
      var moved := items[oldIndex];
      var t := items[..oldIndex] + items[oldIndex + 1..];
      if !(0 <= newIndex <= |t|) {
        if Unique(items) { UniqueRemove(items, oldIndex); }
        items := t;
        return Some(IndexOutOfRange);
      }
      if Unique(items) { UniqueMove(items, oldIndex, newIndex); }
      items := t[..newIndex] + [moved] + t[newIndex..];
      err := None;
    }

    /** `Clear()`: a Reset never runs the check. */
    method Clear()
      modifies this
      ensures items == [] && Unique(items)
    {
      items := [];
    }
  }
}
