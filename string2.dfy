/**
  The string comparison compatibility shim `String2`: equality under one of six
  comparison modes, and prefix / suffix tests built on it.  A null string is `None`.
 */
module String2 {
  import opened Wrappers

  /** The modes of `StringComparison2`, in declaration order (values 0 to 5). */
  datatype StringComparison =
    | CurrentCulture
    | CurrentCultureIgnoreCase
    | InvariantCulture
    | InvariantCultureIgnoreCase
    | Ordinal
    | OrdinalIgnoreCase

  /**
    The culture-sensitive equality the runtime's globalisation tables provide.
    `invariantEq(a, b, ignoreCase)` holds when the invariant culture's comparison of
    the non-null strings `a` and `b` yields zero; `currentEq` is the same for the
    current culture.
   */
  datatype Collation = Collation(
    invariantEq: (string, string, bool) -> bool,
    currentEq: (string, string, bool) -> bool)

  /** Upper-cases an ASCII letter and leaves every other character alone. */
  function UpperAscii(c: char): char {
    if 'a' <= c <= 'z' then (c as int - 32) as char else c
  }

  /** Case folding, character by character (ASCII letters only). */
  function FoldCase(s: string): (r: string)
    ensures |r| == |s|
    ensures forall i :: 0 <= i < |s| ==> r[i] == UpperAscii(s[i])
  {
    seq(|s|, i requires 0 <= i < |s| => UpperAscii(s[i]))
  }

  predicate IsAscii(s: string) {
    forall i :: 0 <= i < |s| ==> s[i] as int < 128
  }

  /**
    A culture equality that, on ASCII strings, ignores exactly the difference
    between upper and lower case when asked to ignore case.
   */
  ghost predicate FoldsAsciiCase(eq: (string, string, bool) -> bool) {
    forall a, b :: IsAscii(a) && IsAscii(b) ==> (eq(a, b, true) <==> FoldCase(a) == FoldCase(b))
  }

  /** A concrete collation: ordinal equality, or equality after ASCII case folding. */
  function AsciiCollation(): (c: Collation)
    ensures FoldsAsciiCase(c.invariantEq) && FoldsAsciiCase(c.currentEq)
  {
    var eq := (a: string, b: string, ignoreCase: bool) =>
      if ignoreCase then FoldCase(a) == FoldCase(b) else a == b;
    Collation(eq, eq)
  }

  /**
    `CompareInfo.Compare(a, b, options) == 0`: a null string sorts before every
    non-null one and equals only another null.
   */
  function CultureEquals(eq: (string, string, bool) -> bool, a: Option<string>, b: Option<string>,
                         ignoreCase: bool): bool
  {
    match (a, b)
    case (None, None) => true
    case (Some(x), Some(y)) => eq(x, y, ignoreCase)
    case _ => false
  }

  /** The runtime's `string.Equals(a, b, comparisonType)` on two non-null strings. */
  function ModeEquals(x: string, y: string, mode: StringComparison, coll: Collation): bool {
    match mode
    case CurrentCulture => coll.currentEq(x, y, false)
    case CurrentCultureIgnoreCase => coll.currentEq(x, y, true)
    case InvariantCulture => coll.invariantEq(x, y, false)
    case InvariantCultureIgnoreCase => coll.invariantEq(x, y, true)
    case Ordinal => x == y
    case OrdinalIgnoreCase => FoldCase(x) == FoldCase(y)
  }

  /** The runtime's `string.Equals(a, b, comparisonType)`, null references included. */
  function BuiltinEquals(a: Option<string>, b: Option<string>, mode: StringComparison,
                         coll: Collation): bool
  {
    match (a, b)
    case (None, None) => true
    case (Some(x), Some(y)) => ModeEquals(x, y, mode, coll)
    case _ => false
  }

  /**
    `String2.Equals`: the two invariant-culture modes go to the invariant culture's
    comparison, every other mode to the runtime's equality for the same mode.  The
    shim agrees with the runtime's equality in every mode.
   */
  function Equals(a: Option<string>, b: Option<string>, mode: StringComparison,
                  coll: Collation): (r: bool)
    ensures r == BuiltinEquals(a, b, mode, coll)
    ensures a.None? && b.None? ==> r
    ensures a.None? != b.None? ==> !r
    ensures mode == Ordinal && a.Some? && b.Some? ==> (r <==> a.value == b.value)
  {
    if mode == InvariantCultureIgnoreCase then
      CultureEquals(coll.invariantEq, a, b, true)
    else if mode == InvariantCulture then
      CultureEquals(coll.invariantEq, a, b, false)
    else
      BuiltinEquals(a, b, mode, coll)
  }

  /** `s.Substring(startIndex, length)`, which throws unless the range lies inside `s`. */
  function Substring(s: string, startIndex: nat, length: nat): (r: string)
    requires startIndex + length <= |s|
    ensures |r| == length
    ensures forall i :: 0 <= i < length ==> r[i] == s[startIndex + i]
  {
    s[startIndex..startIndex + length]
  }

  /** `String2.StartsWith(some, value, comparisonType)`. */
  function StartsWith(some: Option<string>, value: Option<string>, mode: StringComparison,
                      coll: Collation): (r: bool)
    ensures some.None? && value.None? ==> r
    ensures some.None? != value.None? ==> !r
    ensures some.Some? && value.Some? && |value.value| > |some.value| ==> !r
  {
    if some.None? && value.None? then true
    else if some.None? || value.None? then false
    else if |value.value| > |some.value| then false
    else
      var start := Substring(some.value, 0, |value.value|);
      Equals(Some(start), value, mode, coll)
  }

  /** `String2.EndsWith(some, value, comparisonType)`. */
  function EndsWith(some: Option<string>, value: Option<string>, mode: StringComparison,
                    coll: Collation): (r: bool)
    ensures some.None? && value.None? ==> r
    ensures some.None? != value.None? ==> !r
    ensures some.Some? && value.Some? && |value.value| > |some.value| ==> !r
  {
    if some.None? && value.None? then true
    else if some.None? || value.None? then false
    else if |value.value| > |some.value| then false
    else
      var end := Substring(some.value, |some.value| - |value.value|, |value.value|);
      Equals(Some(end), value, mode, coll)
  }

  ghost predicate IsPrefixOf(v: string, s: string) {
    exists t :: v + t == s
  }

  ghost predicate IsSuffixOf(v: string, s: string) {
    exists t :: t + v == s
  }

  /** Under every mode, a non-null `some` is tested on its first `|value|` characters. */
  lemma StartsWithCompares(s: string, v: string, mode: StringComparison, coll: Collation)
    requires |v| <= |s|
    ensures StartsWith(Some(s), Some(v), mode, coll) == ModeEquals(s[..|v|], v, mode, coll)
  {
    assert Substring(s, 0, |v|) == s[..|v|];
  }

  /** ... and `EndsWith` on its last `|value|` characters. */
  lemma EndsWithCompares(s: string, v: string, mode: StringComparison, coll: Collation)
    requires |v| <= |s|
    ensures EndsWith(Some(s), Some(v), mode, coll) == ModeEquals(s[|s| - |v|..], v, mode, coll)
  {
    assert Substring(s, |s| - |v|, |v|) == s[|s| - |v|..];
  }

  lemma PrefixFromWitness(v: string, s: string)
    requires IsPrefixOf(v, s)
    ensures |v| <= |s| && s[..|v|] == v
  {
    var t :| v + t == s;
    assert s[..|v|] == v;
  }

  lemma PrefixToWitness(v: string, s: string)
    requires |v| <= |s| && s[..|v|] == v
    ensures IsPrefixOf(v, s)
  {
    assert v + s[|v|..] == s;
  }

  lemma SuffixFromWitness(v: string, s: string)
    requires IsSuffixOf(v, s)
    ensures |v| <= |s| && s[|s| - |v|..] == v
  {
    var t :| t + v == s;
    assert s[|s| - |v|..] == v;
  }

  lemma SuffixToWitness(v: string, s: string)
    requires |v| <= |s| && s[|s| - |v|..] == v
    ensures IsSuffixOf(v, s)
  {
    assert s[..|s| - |v|] + v == s;
  }

  /** Under ordinal comparison, `StartsWith` is exactly the prefix relation. */
  lemma StartsWithOrdinal(s: string, v: string, coll: Collation)
    ensures StartsWith(Some(s), Some(v), Ordinal, coll) <==> IsPrefixOf(v, s)
  {
    if |v| <= |s| {
      StartsWithCompares(s, v, Ordinal, coll);
      if s[..|v|] == v {
        PrefixToWitness(v, s);
      }
    }
    if IsPrefixOf(v, s) {
      PrefixFromWitness(v, s);
    }
  }

  /** Under ordinal comparison, `EndsWith` is exactly the suffix relation. */
  lemma EndsWithOrdinal(s: string, v: string, coll: Collation)
    ensures EndsWith(Some(s), Some(v), Ordinal, coll) <==> IsSuffixOf(v, s)
  {
    if |v| <= |s| {
      EndsWithCompares(s, v, Ordinal, coll);
      if s[|s| - |v|..] == v {
        SuffixToWitness(v, s);
      }
    }
    if IsSuffixOf(v, s) {
      SuffixFromWitness(v, s);
    }
  }

  /** The empty value is a prefix and a suffix of every non-null string. */
  lemma EmptyValueMatches(s: string, coll: Collation)
    ensures StartsWith(Some(s), Some(""), Ordinal, coll)
    ensures EndsWith(Some(s), Some(""), Ordinal, coll)
  {
    StartsWithOrdinal(s, "", coll);
    EndsWithOrdinal(s, "", coll);
    assert "" + s == s && s + "" == s;
  }

  lemma FoldCasePrefix(s: string, k: nat)
    requires k <= |s|
    ensures FoldCase(s[..k]) == FoldCase(s)[..k]
  {
  }

  lemma FoldCaseSuffix(s: string, k: nat)
    requires k <= |s|
    ensures FoldCase(s[k..]) == FoldCase(s)[k..]
  {
  }

  /** Under ordinal case-insensitive comparison, `StartsWith` is the prefix relation after folding. */
  lemma StartsWithOrdinalIgnoreCase(s: string, v: string, coll: Collation)
    ensures StartsWith(Some(s), Some(v), OrdinalIgnoreCase, coll) <==> IsPrefixOf(FoldCase(v), FoldCase(s))
  {
    var fs, fv := FoldCase(s), FoldCase(v);
    if |v| <= |s| {
      StartsWithCompares(s, v, OrdinalIgnoreCase, coll);
      FoldCasePrefix(s, |v|);
      if fs[..|fv|] == fv {
        PrefixToWitness(fv, fs);
      }
    }
    if IsPrefixOf(fv, fs) {
      PrefixFromWitness(fv, fs);
    }
  }

  /** Once the length guard passes, case-insensitive `EndsWith` compares the folded end of `some`. */
  lemma EndsWithFolded(s: string, v: string, coll: Collation)
    requires |v| <= |s|
    ensures EndsWith(Some(s), Some(v), OrdinalIgnoreCase, coll) == (FoldCase(s)[|s| - |v|..] == FoldCase(v))
  {
    EndsWithCompares(s, v, OrdinalIgnoreCase, coll);
    FoldCaseSuffix(s, |s| - |v|);
  }

  /** Under ordinal case-insensitive comparison, `EndsWith` is the suffix relation after folding. */
  lemma EndsWithOrdinalIgnoreCase(s: string, v: string, coll: Collation)
    ensures EndsWith(Some(s), Some(v), OrdinalIgnoreCase, coll) <==> IsSuffixOf(FoldCase(v), FoldCase(s))
  {
    var fs, fv := FoldCase(s), FoldCase(v);
    if |v| <= |s| {
      EndsWithFolded(s, v, coll);
      if fs[|fs| - |fv|..] == fv {
        SuffixToWitness(fv, fs);
      }
    }
    if IsSuffixOf(fv, fs) {
      SuffixFromWitness(fv, fs);
    }
  }

  /** The ordinal modes never consult the culture tables. */
  lemma OrdinalModesIgnoreCollation(a: Option<string>, b: Option<string>, mode: StringComparison,
                                    c1: Collation, c2: Collation)
    requires mode == Ordinal || mode == OrdinalIgnoreCase
    ensures Equals(a, b, mode, c1) == Equals(a, b, mode, c2)
  {
  }
}
