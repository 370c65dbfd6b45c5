/** The one string test the page logic relies on: JavaScript's
    `String.prototype.includes`. */
module Strings {

  /** `needle` occurs in `s` at some position (the reference definition). */
  ghost predicate OccursAt(s: string, needle: string, i: int) {
    0 <= i && i + |needle| <= |s| && s[i..i + |needle|] == needle
  }

  ghost predicate Occurs(s: string, needle: string) {
    exists i :: OccursAt(s, needle, i)
  }

  /** `s.includes(needle)`: a left-to-right scan. The empty needle occurs in
      every string, as in JavaScript. */
  function Contains(s: string, needle: string): (r: bool)
    ensures r <==> Occurs(s, needle)
    decreases |s|
  {
    if |needle| > |s| then
      assert forall i :: !OccursAt(s, needle, i);
      false
    else if s[..|needle|] == needle then
      assert OccursAt(s, needle, 0);
      true
    else
      var rest := Contains(s[1..], needle);
      ShiftOccurs(s, needle);
      rest
  }

  /** When `needle` is not a prefix of the non-empty `s`, it occurs in `s`
      exactly when it occurs in `s[1..]`. */
  lemma ShiftOccurs(s: string, needle: string)
    requires |needle| <= |s| && s[..|needle|] != needle
    ensures Occurs(s, needle) <==> Occurs(s[1..], needle)
  {
    if Occurs(s, needle) {
      var i :| OccursAt(s, needle, i);
      assert i != 0;
      assert s[1..][i - 1..i - 1 + |needle|] == s[i..i + |needle|];
      assert OccursAt(s[1..], needle, i - 1);
    }
    if Occurs(s[1..], needle) {
      var j :| OccursAt(s[1..], needle, j);
      assert s[1..][j..j + |needle|] == s[j + 1..j + 1 + |needle|];
      assert OccursAt(s, needle, j + 1);
    }
  }

  /** A string containing `needle` still contains it with anything put
      before or after it. */
  lemma ContainsInContext(pre: string, s: string, post: string, needle: string)
    requires Contains(s, needle)
    ensures Contains(pre + s + post, needle)
  {
    var i :| OccursAt(s, needle, i);
    var t := pre + s + post;
    assert t[|pre| + i..|pre| + i + |needle|] == s[i..i + |needle|];
    assert OccursAt(t, needle, |pre| + i);
  }

  /** `s.endsWith(suffix)`. */
  function EndsWith(s: string, suffix: string): (r: bool)
    ensures r <==> exists pre :: pre + suffix == s
  {
    SuffixSplit(s, suffix);
    |suffix| <= |s| && s[|s| - |suffix|..] == suffix
  }

  /** `suffix` ends `s` exactly when `s` splits into something followed by it. */
  lemma SuffixSplit(s: string, suffix: string)
    ensures (exists pre :: pre + suffix == s)
        <==> |suffix| <= |s| && s[|s| - |suffix|..] == suffix
  {
    if |suffix| <= |s| && s[|s| - |suffix|..] == suffix {
      assert s[..|s| - |suffix|] + suffix == s;
    }
    forall pre | pre + suffix == s
      ensures |suffix| <= |s| && s[|s| - |suffix|..] == suffix
    {
      assert (pre + suffix)[|pre|..] == suffix;
    }
  }
}
