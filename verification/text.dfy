/** The string operations the dashboard relies on: ASCII lower-casing
    (Python's str.lower restricted to ASCII) and substring search
    (Python's `needle in hay` on strings). */
module Text {

  predicate IsAsciiDigit(c: char) { '0' <= c <= '9' }

  predicate AllDigits(s: string)
  {
    forall i :: 0 <= i < |s| ==> IsAsciiDigit(s[i])
  }

  predicate IsAsciiUpper(c: char) { 'A' <= c <= 'Z' }

  /** One character of str.lower(): 'A'..'Z' become 'a'..'z', everything
      else is left alone. */
  function LowerChar(c: char): (r: char)
    ensures !IsAsciiUpper(r)
    ensures !IsAsciiUpper(c) ==> r == c
  {
    if IsAsciiUpper(c) then (c as int - 'A' as int + 'a' as int) as char else c
  }

  function Lower(s: string): (r: string)
    ensures |r| == |s|
    ensures forall i :: 0 <= i < |s| ==> r[i] == LowerChar(s[i])
  {
    if s == [] then [] else [LowerChar(s[0])] + Lower(s[1..])
  }

  /** Lower-casing twice is lower-casing once. */
  lemma LowerIdempotent(s: string)
    ensures Lower(Lower(s)) == Lower(s)
  {
  }

  /** `needle` sits in `hay` starting at index `i`. */
  predicate OccursAt(needle: string, hay: string, i: int)
  {
    0 <= i && i + |needle| <= |hay| && hay[i..i + |needle|] == needle
  }

  /** The declarative meaning of Python's `needle in hay`. */
  ghost predicate IsSubstring(needle: string, hay: string)
  {
    exists i :: OccursAt(needle, hay, i)
  }

  /** `needle in hay`, scanning the start positions of `hay` left to right. */
  function Contains(needle: string, hay: string): bool
    decreases |hay|
  {
    if |needle| > |hay| then false
    else if hay[..|needle|] == needle then true
    else Contains(needle, hay[1..])
  }

  /** The scan finds the needle exactly when it occurs somewhere. */
  lemma {:induction false} ContainsIsSubstring(needle: string, hay: string)
    ensures Contains(needle, hay) <==> IsSubstring(needle, hay)
    decreases |hay|
  {
    if |needle| > |hay| {
    } else if hay[..|needle|] == needle {
      assert OccursAt(needle, hay, 0);
    } else {
      ContainsIsSubstring(needle, hay[1..]);
      if IsSubstring(needle, hay) {
        var i :| OccursAt(needle, hay, i);
        assert i != 0;
        OccursInTail(needle, hay, i - 1);
      }
      if IsSubstring(needle, hay[1..]) {
        var i :| OccursAt(needle, hay[1..], i);
        OccursInTail(needle, hay, i);
      }
    }
  }

  /** Position i + 1 of hay is position i of its tail. */
  lemma OccursInTail(needle: string, hay: string, i: nat)
    requires hay != []
    ensures OccursAt(needle, hay, i + 1) <==> OccursAt(needle, hay[1..], i)
  {
    if i + 1 + |needle| <= |hay| {
      assert hay[1..][i..i + |needle|] == hay[i + 1..i + 1 + |needle|];
    }
  }

  lemma LowerAppend(a: string, b: string)
    ensures Lower(a + b) == Lower(a) + Lower(b)
  {
    var l, r := Lower(a + b), Lower(a) + Lower(b);
    forall i | 0 <= i < |l|
      ensures l[i] == r[i]
    {
      if i < |a| {
        assert (a + b)[i] == a[i] && r[i] == Lower(a)[i];
      } else {
        assert (a + b)[i] == b[i - |a|] && r[i] == Lower(b)[i - |a|];
      }
    }
    assert |l| == |r|;
  }

  /** A needle at the very start of the haystack is found. */
  lemma ContainsAtStart(needle: string, rest: string)
    ensures Contains(needle, needle + rest)
  {
    assert (needle + rest)[..|needle|] == needle;
  }

  /** The empty string is in every string. */
  lemma EmptyIsEverywhere(hay: string)
    ensures Contains([], hay)
  {
  }

  /** A needle with a character the haystack lacks is not found. */
  lemma MissingCharNotContained(needle: string, hay: string, k: int)
    requires 0 <= k < |needle| && needle[k] !in hay
    ensures !Contains(needle, hay)
  {
    ContainsIsSubstring(needle, hay);
    forall i
      ensures !OccursAt(needle, hay, i)
    {
      if 0 <= i && i + |needle| <= |hay| {
        assert hay[i..i + |needle|][k] == hay[i + k];
        assert hay[i + k] in hay;
      }
    }
  }

  /** Lower-casing introduces a character only from itself or its upper-case form. */
  lemma LowerMissing(s: string, c: char, upper: char)
    requires c !in s && upper !in s
    requires IsAsciiUpper(upper) ==> LowerChar(upper) == c
    requires 'a' <= c <= 'z' ==> IsAsciiUpper(upper) && LowerChar(upper) == c
    ensures c !in Lower(s)
  {
    forall i | 0 <= i < |s|
      ensures Lower(s)[i] != c
    {
      assert s[i] in s;
    }
  }
}
