/** ASCII models of the three JavaScript string operations the pages use for
    searching and routing: `toLowerCase`, `includes` and `startsWith`
    (the last is Dafny's built-in prefix test `prefix <= s`). */
module Text {

  predicate IsUpper(c: char) {
    'A' <= c <= 'Z'
  }

  /** `toLowerCase` on one character, restricted to ASCII. */
  function LowerChar(c: char): (d: char)
    ensures !IsUpper(d)
    ensures IsUpper(c) ==> d as int == c as int + ('a' as int - 'A' as int)
    ensures !IsUpper(c) ==> d == c
  {
    if IsUpper(c) then (c as int + 32) as char else c
  }

  /** `s.toLowerCase()`: the same length, every character folded. */
  function ToLower(s: string): (r: string)
    ensures |r| == |s|
    ensures forall i :: 0 <= i < |s| ==> r[i] == LowerChar(s[i])
    ensures forall i :: 0 <= i < |r| ==> !IsUpper(r[i])
  {
    seq(|s|, i requires 0 <= i < |s| => LowerChar(s[i]))
  }

  lemma ToLowerIdempotent(s: string)
    ensures ToLower(ToLower(s)) == ToLower(s)
  {
  }

  /** `hay.includes(needle)`, scanning offsets from the left: a needle at the
      front is found, and nothing longer than the haystack ever is. */
  function Contains(hay: string, needle: string): (r: bool)
    ensures needle <= hay ==> r
    ensures r ==> |needle| <= |hay|
    decreases |hay|
  {
    needle <= hay || (|hay| > 0 && Contains(hay[1..], needle))
  }

  /** `needle` occurs in `hay` starting at offset `i`. */
  ghost predicate OccursAt(hay: string, needle: string, i: int) {
    0 <= i && i + |needle| <= |hay| && hay[i..i + |needle|] == needle
  }

  /** An occurrence at any offset is found by the scan. */
  lemma {:induction false} ContainsIfOccurs(hay: string, needle: string, i: int)
    requires OccursAt(hay, needle, i)
    ensures Contains(hay, needle)
    decreases i
  {
    if i > 0 {
      assert hay[1..][i - 1..i - 1 + |needle|] == hay[i..i + |needle|];
      ContainsIfOccurs(hay[1..], needle, i - 1);
    } else {
      assert hay[..|needle|] == needle;
    }
  }

  /** What the scan finds is an occurrence at some offset. */
  lemma {:induction false} OccursIfContains(hay: string, needle: string)
    requires Contains(hay, needle)
    ensures exists i :: OccursAt(hay, needle, i)
    decreases |hay|
  {
    if needle <= hay {
      assert OccursAt(hay, needle, 0);
    } else {
      OccursIfContains(hay[1..], needle);
      var j :| OccursAt(hay[1..], needle, j);
      assert hay[1..][j..j + |needle|] == hay[j + 1..j + 1 + |needle|];
      assert OccursAt(hay, needle, j + 1);
    }
  }

  /** The scan agrees with the declarative meaning of substring containment. */
  lemma ContainsIffOccurs(hay: string, needle: string)
    ensures Contains(hay, needle) <==> exists i :: OccursAt(hay, needle, i)
  {
    if Contains(hay, needle) {
      OccursIfContains(hay, needle);
    }
    if exists i :: OccursAt(hay, needle, i) {
      var i :| OccursAt(hay, needle, i);
      ContainsIfOccurs(hay, needle, i);
    }
  }

  /** `hay.toLowerCase().includes(needle.toLowerCase())`: every string includes
      itself, and no needle longer than the haystack is included. */
  predicate IncludesIgnoringCase(hay: string, needle: string)
    ensures needle == hay ==> IncludesIgnoringCase(hay, needle)
    ensures IncludesIgnoringCase(hay, needle) ==> |needle| <= |hay|
  {
    Contains(ToLower(hay), ToLower(needle))
  }

  /** The empty search term is found in every string. */
  lemma EmptyNeedleAlwaysIncluded(hay: string)
    ensures IncludesIgnoringCase(hay, "")
  {
    assert ToLower("") == "";
  }

  /** Case-insensitive containment means the folded needle occurs in the folded haystack. */
  lemma IncludesIgnoringCaseMeaning(hay: string, needle: string)
    ensures IncludesIgnoringCase(hay, needle) <==>
            exists i :: OccursAt(ToLower(hay), ToLower(needle), i)
  {
    ContainsIffOccurs(ToLower(hay), ToLower(needle));
  }

  /** Folding the needle first changes nothing: the test ignores the case of the search term. */
  lemma IncludesIgnoresNeedleCase(hay: string, needle: string)
    ensures IncludesIgnoringCase(hay, ToLower(needle)) == IncludesIgnoringCase(hay, needle)
  {
    ToLowerIdempotent(needle);
  }
}
