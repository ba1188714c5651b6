/**
 * The output file name of the price updater: the input path with its last
 * extension removed, as POSIX `os.path.splitext` removes it, followed by
 * `_updated.csv` (main.py:35).
 */
module OutputPath {

  const Sep := '/'
  const ExtSep := '.'
  const Suffix := "_updated.csv"

  /** The index of the last occurrence of `c` in `s`, or -1 when there is none. */
  function RFind(s: string, c: char): (i: int)
    ensures -1 <= i < |s|
    ensures i >= 0 ==> s[i] == c
    ensures forall j :: i < j < |s| ==> s[j] != c
  {
    if s == [] then -1
    else if s[|s| - 1] == c then |s| - 1
    else RFind(s[..|s| - 1], c)
  }

  /** True when every character of `p` from `lo` up to (not including) `hi` is a dot. */
  predicate AllDots(p: string, lo: int, hi: int)
    requires 0 <= lo <= hi <= |p|
  {
    forall k :: lo <= k < hi ==> p[k] == ExtSep
  }

  /**
   * `os.path.splitext` on POSIX, as (root, extension): the extension runs
   * from the last dot of the final path component to the end, provided
   * some character of that component before the dot is not itself a dot;
   * otherwise the extension is empty.
   */
  function SplitExt(p: string): (string, string) {
    var sepIndex := RFind(p, Sep);
    var dotIndex := RFind(p, ExtSep);
    if dotIndex > sepIndex && !AllDots(p, sepIndex + 1, dotIndex) then
      (p[..dotIndex], p[dotIndex..])
    else
      (p, "")
  }

  /** Position `j` lies in the final path component: no separator at or after it. */
  ghost predicate InLastComponent(p: string, j: int)
    requires 0 <= j <= |p|
  {
    forall k :: j <= k < |p| ==> p[k] != Sep
  }

  /** Some dot of the final path component follows a character that is not a dot. */
  ghost predicate HasExtension(p: string) {
    exists i, j :: 0 <= j < i < |p| && InLastComponent(p, j) && p[i] == ExtSep && p[j] != ExtSep
  }

  /** The output path derived from the input path (main.py:35). */
  function UpdatedPath(input: string): (output: string)
    // without an extension the suffix is appended to the whole path
    ensures !HasExtension(input) ==> output == input + Suffix
    // otherwise everything from the last dot on is replaced by the suffix,
    // and that dot lies in the final path component
    ensures HasExtension(input) ==>
      exists d :: && 0 <= d < |input| && input[d] == ExtSep
                  && InLastComponent(input, d)
                  && (forall k :: d < k < |input| ==> input[k] != ExtSep)
                  && output == input[..d] + Suffix
  {
    SplitExtFindsEveryExtension(input);
    if SplitExt(input).1 != "" then SplitExtIsLastExtension(input); SplitExt(input).0 + Suffix
    else SplitExt(input).0 + Suffix
  }

  /** The root and the extension always put the path back together. */
  lemma SplitExtRejoins(p: string)
    ensures SplitExt(p).0 + SplitExt(p).1 == p
  {
  }

  /**
   * When `SplitExt` splits something off, it starts at a dot of the final
   * path component, after a character of that component that is not a dot,
   * and holds no other dot.
   */
  lemma SplitExtIsLastExtension(p: string)
    requires SplitExt(p).1 != ""
    ensures var d := |SplitExt(p).0|;
      && d < |p| && SplitExt(p).1 == p[d..]
      && p[d] == ExtSep
      && InLastComponent(p, d)
      && (forall k :: d < k < |p| ==> p[k] != ExtSep)
      && (exists j :: 0 <= j < d && InLastComponent(p, j) && p[j] != ExtSep)
  {
  }

  /**
   * `SplitExt` splits nothing off exactly when no dot of the final path
   * component follows a character that is not a dot.
   */
  lemma SplitExtFindsEveryExtension(p: string)
    ensures SplitExt(p).1 != "" <==> HasExtension(p)
  {
  }

  /** The original extension is dropped, whatever it was. */
  lemma ExtensionReplaced()
    ensures UpdatedPath("a/prices.txt") == "a/prices_updated.csv"
  {
    var p := "a/prices.txt";
    assert p[1] == Sep && p[8] == ExtSep;
    assert forall k :: 1 < k < |p| ==> p[k] != Sep;
    assert forall k :: 8 < k < |p| ==> p[k] != ExtSep;
    assert RFind(p, Sep) == 1;
    assert RFind(p, ExtSep) == 8;
    assert p[2] != ExtSep;
    assert !AllDots(p, 2, 8);
    assert SplitExt(p).0 == "a/prices";
    assert "a/prices" + Suffix == "a/prices_updated.csv";
  }

  /** Without an extension the suffix is simply appended. */
  lemma NoExtensionAppends()
    ensures UpdatedPath("prices") == "prices_updated.csv"
  {
  }

  /** A dot that only leads the final component is not an extension. */
  lemma LeadingDotIsNotExtension()
    ensures UpdatedPath("data/.prices") == "data/.prices_updated.csv"
  {
    var p := "data/.prices";
    assert p[4] == Sep && p[5] == ExtSep;
    assert forall k :: 4 < k < |p| ==> p[k] != Sep;
    assert forall k :: 5 < k < |p| ==> p[k] != ExtSep;
    assert RFind(p, Sep) == 4;
    assert RFind(p, ExtSep) == 5;
    assert p + Suffix == "data/.prices_updated.csv";
  }

  /** Only the last extension goes, and dots in directory names never count. */
  lemma OnlyLastExtensionOfLastComponent()
    ensures UpdatedPath("prices.tar.gz") == "prices.tar_updated.csv"
    ensures UpdatedPath("v1.2/prices") == "v1.2/prices_updated.csv"
  {
    var p := "prices.tar.gz";
    assert p[10] == ExtSep;
    assert forall k :: 0 <= k < |p| ==> p[k] != Sep;
    assert forall k :: 10 < k < |p| ==> p[k] != ExtSep;
    assert RFind(p, Sep) == -1;
    assert RFind(p, ExtSep) == 10;
    assert p[0] != ExtSep;
    assert !AllDots(p, 0, 10);
    assert SplitExt(p).0 == "prices.tar";
    assert "prices.tar" + Suffix == "prices.tar_updated.csv";
    var q := "v1.2/prices";
    assert q[4] == Sep && q[2] == ExtSep;
    assert forall k :: 4 < k < |q| ==> q[k] != Sep;
    assert forall k :: 2 < k < |q| ==> q[k] != ExtSep;
    assert RFind(q, Sep) == 4;
    assert RFind(q, ExtSep) == 2;
    assert q + Suffix == "v1.2/prices_updated.csv";
  }
}
