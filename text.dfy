/** The Python string operations the submit handler relies on: `str.strip()`,
    `str.lower()` and the substring test `sub in s`. */
module Text {

  /** Python's `str.isspace()` for one character. */
  predicate IsSpace(c: char) {
    || c == ' '
    || '\t' <= c <= '\r'
    || '\U{1c}' <= c <= '\U{1f}'
    || c == '\U{85}'
    || c == '\U{a0}'
    || c == '\U{1680}'
    || '\U{2000}' <= c <= '\U{200a}'
    || c == '\U{2028}'
    || c == '\U{2029}'
    || c == '\U{202f}'
    || c == '\U{205f}'
    || c == '\U{3000}'
  }

  ghost predicate AllSpace(s: string) {
    forall i :: 0 <= i < |s| ==> IsSpace(s[i])
  }

  /** `sub` occurs in `s` starting at position `i`. */
  ghost predicate OccursAt(sub: string, s: string, i: int) {
    0 <= i && i + |sub| <= |s| && s[i..i + |sub|] == sub
  }

  /** `sub` occurs in `s` at some position. */
  ghost predicate Occurs(sub: string, s: string) {
    exists i :: OccursAt(sub, s, i)
  }

  /** The first index at or after `i` whose character is not whitespace, or `|s|`. */
  function SkipSpace(s: string, i: nat): (j: nat)
    requires i <= |s|
    ensures i <= j <= |s|
    ensures forall k :: i <= k < j ==> IsSpace(s[k])
    ensures j < |s| ==> !IsSpace(s[j])
    decreases |s| - i
  {
    if i < |s| && IsSpace(s[i]) then SkipSpace(s, i + 1) else i
  }

  /** The end of the text before `j` once trailing whitespace is dropped: the least
      `i <= j` such that `s[i..j]` is all whitespace. */
  function SkipSpaceBack(s: string, j: nat): (i: nat)
    requires j <= |s|
    ensures i <= j
    ensures forall k :: i <= k < j ==> IsSpace(s[k])
    ensures 0 < i ==> !IsSpace(s[i - 1])
    decreases j
  {
    if 0 < j && IsSpace(s[j - 1]) then SkipSpaceBack(s, j - 1) else j
  }

  /** Python's `s.strip()`: the characters between the leading and the trailing
      whitespace; neither end of the result is whitespace. */
  function Strip(s: string): (r: string)
    ensures |r| <= |s|
    ensures r == [] || (!IsSpace(r[0]) && !IsSpace(r[|r| - 1]))
  {
    var start := SkipSpace(s, 0);
    var end := SkipSpaceBack(s, |s|);
    if end <= start then "" else s[start..end]
  }

  /** `SkipSpace` is determined by where the whitespace run ends. */
  lemma {:induction false} SkipSpaceAt(s: string, i: nat, j: nat)
    requires i <= j <= |s|
    requires forall k :: i <= k < j ==> IsSpace(s[k])
    requires j < |s| ==> !IsSpace(s[j])
    ensures SkipSpace(s, i) == j
    decreases j - i
  {
    if i < j {
      SkipSpaceAt(s, i + 1, j);
    }
  }

  /** `SkipSpaceBack` is determined by where the trailing whitespace run starts. */
  lemma {:induction false} SkipSpaceBackAt(s: string, i: nat, j: nat)
    requires i <= j <= |s|
    requires forall k :: i <= k < j ==> IsSpace(s[k])
    requires 0 < i ==> !IsSpace(s[i - 1])
    ensures SkipSpaceBack(s, j) == i
    decreases j - i
  {
    if i < j {
      SkipSpaceBackAt(s, i, j - 1);
    }
  }

  /** A string strips to the empty string exactly when it is all whitespace. */
  lemma StripBlankIff(s: string)
    ensures Strip(s) == "" <==> AllSpace(s)
  {
    var start := SkipSpace(s, 0);
    if !AllSpace(s) {
      assert start < |s|;
      assert !IsSpace(s[start]);
    }
  }

  /** Strip removes exactly the surrounding whitespace: padding a text whose ends are
      not whitespace with whitespace on either side and stripping gives the text back. */
  lemma StripRemovesPadding(before: string, text: string, after: string)
    requires AllSpace(before) && AllSpace(after)
    requires text == [] || (!IsSpace(text[0]) && !IsSpace(text[|text| - 1]))
    ensures Strip(before + text + after) == text
  {
    var s := before + text + after;
    if text == [] {
      assert AllSpace(s) by {
        forall k | 0 <= k < |s| ensures IsSpace(s[k]) {
          if k < |before| { assert s[k] == before[k]; } else { assert s[k] == after[k - |before|]; }
        }
      }
      StripBlankIff(s);
    } else {
      var start, end := |before|, |before| + |text|;
      forall k | 0 <= k < start ensures IsSpace(s[k]) {
        assert s[k] == before[k];
      }
      assert s[start] == text[0];
      SkipSpaceAt(s, 0, start);
      forall k | end <= k < |s| ensures IsSpace(s[k]) {
        assert s[k] == after[k - end];
      }
      assert s[end - 1] == text[|text| - 1];
      SkipSpaceBackAt(s, end, |s|);
      assert s[start..end] == text;
    }
  }

  /** Stripping twice is stripping once. */
  lemma StripIdempotent(s: string)
    ensures Strip(Strip(s)) == Strip(s)
  {
    var r := Strip(s);
    StripRemovesPadding("", r, "");
    assert "" + r + "" == r;
  }

  /** The stripped text is a piece of the original. */
  lemma StripIsPiece(s: string)
    ensures Occurs(Strip(s), s)
  {
    var start := SkipSpace(s, 0);
    var end := SkipSpaceBack(s, |s|);
    if end <= start {
      assert OccursAt("", s, 0);
    } else {
      assert OccursAt(Strip(s), s, start);
    }
  }

  function LowerChar(c: char): char {
    if 'A' <= c <= 'Z' then (c as int + 32) as char else c
  }

  /** Python's `s.lower()` on ASCII letters. */
  function Lower(s: string): (r: string)
    ensures |r| == |s|
    ensures forall i :: 0 <= i < |s| ==> r[i] == LowerChar(s[i])
  {
    seq(|s|, i requires 0 <= i < |s| => LowerChar(s[i]))
  }

  /** Lowering commutes with taking a slice. */
  lemma LowerSlice(s: string, i: nat, j: nat)
    requires i <= j <= |s|
    ensures Lower(s[i..j]) == Lower(s)[i..j]
  {
  }

  /** Python's `sub in s`. */
  function Contains(s: string, sub: string): (b: bool)
    ensures b <==> Occurs(sub, s)
    decreases |s|
  {
    if |s| < |sub| then
      false
    else if s[..|sub|] == sub then
      assert OccursAt(sub, s, 0);
      true
    else
      OccursStep(sub, s);
      Contains(s[1..], sub)
  }

  /** When `sub` is not a prefix of `s`, it occurs in `s` iff it occurs in `s[1..]`. */
  lemma OccursStep(sub: string, s: string)
    requires |sub| <= |s| && s[..|sub|] != sub
    ensures Occurs(sub, s) <==> Occurs(sub, s[1..])
  {
    if Occurs(sub, s) {
      var i :| OccursAt(sub, s, i);
      assert i != 0;
      assert s[1..][i - 1..i - 1 + |sub|] == sub;
      assert OccursAt(sub, s[1..], i - 1);
    }
    if Occurs(sub, s[1..]) {
      var i :| OccursAt(sub, s[1..], i);
      assert s[i + 1..i + 1 + |sub|] == sub;
      assert OccursAt(sub, s, i + 1);
    }
  }
}
