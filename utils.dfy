/** File-name helpers of the engine (unda/src/utils/Utils.cpp). */
module Utils {
  import opened Wrappers

  /** `std::string::find_last_of` for a single character: the position of the
      last occurrence of `c`, or `None` for `npos`. */
  function LastIndexOf(s: string, c: char): (r: Option<nat>)
    ensures r.None? <==> c !in s
    ensures r.Some? ==> r.value < |s| && s[r.value] == c && c !in s[r.value + 1..]
  {
    if |s| == 0 then None
    else if s[|s| - 1] == c then Some(|s| - 1)
    else
      assert s == s[..|s| - 1] + [s[|s| - 1]];
      LastIndexOf(s[..|s| - 1], c)
  }

  /** `StemFileName`: `substr(0, find_last_of('.'))`, where `substr(0, npos)`
      is the whole string. */
  function StemFileName(fileName: string): (stem: string)
    ensures stem <= fileName
    ensures '.' !in fileName ==> stem == fileName
    ensures '.' in fileName ==>
      |stem| < |fileName| && fileName[|stem|] == '.' && '.' !in fileName[|stem| + 1..]
  {
    match LastIndexOf(fileName, '.')
    case None => fileName
    case Some(pos) => fileName[..pos]
  }

  /** The stem is strictly shorter than the name exactly when the name has a dot. */
  lemma StemShorterIffDot(fileName: string)
    ensures |StemFileName(fileName)| < |fileName| <==> '.' in fileName
  {
  }

  /** The part that `StemFileName` removes starts with the last dot and holds
      exactly one dot: earlier dots stay in the stem. */
  lemma RemovedSuffixHasOneDot(fileName: string)
    requires '.' in fileName
    ensures var stem := StemFileName(fileName);
      fileName == stem + fileName[|stem|..] &&
      multiset(fileName[|stem|..])['.'] == 1
  {
    var stem := StemFileName(fileName);
    var rest := fileName[|stem| + 1..];
    assert fileName[|stem|..] == ['.'] + rest;
    assert multiset(rest)['.'] == 0;
  }

  /** Only the last extension goes: `"a.b.c"` becomes `"a.b"`. */
  lemma StemKeepsEarlierDots()
    ensures StemFileName("a.b.c") == "a.b"
  {
    assert LastIndexOf("a.b.c", '.') == Some(3);
  }
}
