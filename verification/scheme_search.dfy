/** The scheme search of the "Mutual Fund Details" tab (mf.py:66-70): the
    provider's scheme directory, code to name in the provider's order, is
    filtered down to the entries whose name contains the query, ignoring
    ASCII case. Only the name is searched; the code is never looked at. */
module SchemeSearch {
  import opened Results
  import opened Text

  datatype Scheme = Scheme(code: string, name: string)

  /** The directory as the provider lists it; a dict, so codes are unique. */
  type Directory = seq<Scheme>

  predicate UniqueCodes(dir: Directory)
  {
    forall i, j :: 0 <= i < j < |dir| ==> dir[i].code != dir[j].code
  }

  /** The name the directory gives `code`, if it lists it. */
  function NameOf(dir: Directory, code: string): Option<string>
  {
    if dir == [] then None
    else if dir[0].code == code then Some(dir[0].name)
    else NameOf(dir[1..], code)
  }

  /** `query.lower() in name.lower()`. */
  predicate NameMatches(name: string, query: string)
  {
    Contains(Lower(query), Lower(name))
  }

  /** `xs` is `ys` with some elements left out and the rest in their order. */
  predicate IsSubsequence<T(==)>(xs: seq<T>, ys: seq<T>)
    decreases |ys|
  {
    if xs == [] then true
    else if ys == [] then false
    else if xs[0] == ys[0] then IsSubsequence(xs[1..], ys[1..])
    else IsSubsequence(xs, ys[1..])
  }

  /** The dict comprehension of mf.py:66-70. An entry is kept exactly when
      its name contains the query, ignoring case; nothing is added or changed. */
  function Match(dir: Directory, query: string): (r: Directory)
    ensures |r| <= |dir|
    ensures forall s :: s in r <==> s in dir && NameMatches(s.name, query)
  {
    if dir == [] then []
    else if NameMatches(dir[0].name, query) then [dir[0]] + Match(dir[1..], query)
    else Match(dir[1..], query)
  }

  /** The matches appear in directory order. */
  lemma {:induction false} MatchKeepsOrder(dir: Directory, query: string)
    ensures IsSubsequence(Match(dir, query), dir)
  {
    if dir != [] {
      MatchKeepsOrder(dir[1..], query);
      var r := Match(dir[1..], query);
      if !NameMatches(dir[0].name, query) && r != [] {
        assert r[0] in r;
      }
    }
  }

  lemma {:induction false} NameOfMember(dir: Directory, i: int)
    requires UniqueCodes(dir) && 0 <= i < |dir|
    ensures NameOf(dir, dir[i].code) == Some(dir[i].name)
  {
    if i > 0 {
      NameOfMember(dir[1..], i - 1);
    }
  }

  lemma {:induction false} MatchUniqueCodes(dir: Directory, query: string)
    requires UniqueCodes(dir)
    ensures UniqueCodes(Match(dir, query))
  {
    if dir != [] {
      MatchUniqueCodes(dir[1..], query);
      var r := Match(dir[1..], query);
      forall s | s in r
        ensures s.code != dir[0].code
      {
        assert s in dir[1..];
      }
    }
  }

  /** Every code the search returns maps to exactly the name the directory
      gives it, and the result is itself a valid directory. */
  lemma MatchKeepsNames(dir: Directory, query: string, code: string, name: string)
    requires UniqueCodes(dir)
    requires NameOf(Match(dir, query), code) == Some(name)
    ensures NameOf(dir, code) == Some(name)
    ensures NameMatches(name, query)
  {
    var r := Match(dir, query);
    MatchUniqueCodes(dir, query);
    var k := NameOfIndex(r, code);
    var i :| 0 <= i < |dir| && dir[i] == r[k];
    NameOfMember(dir, i);
  }

  /** Where NameOf found its answer. */
  lemma {:induction false} NameOfIndex(dir: Directory, code: string) returns (k: int)
    requires NameOf(dir, code).Some?
    ensures 0 <= k < |dir| && dir[k].code == code && dir[k].name == NameOf(dir, code).value
  {
    if dir[0].code == code {
      k := 0;
    } else {
      k := NameOfIndex(dir[1..], code);
      k := k + 1;
    }
  }

  /** The code takes no part in the decision: entries with the same name are
      kept or dropped together, whatever their codes. */
  lemma MatchIgnoresCode(dir: Directory, query: string, a: Scheme, b: Scheme)
    requires a in dir && b in dir && a.name == b.name
    ensures a in Match(dir, query) <==> b in Match(dir, query)
  {
  }

  /** Searching by a scheme's code finds nothing when some digit of the
      code occurs in no name: only names are searched. */
  lemma SearchByCodeFindsNothing(dir: Directory, code: string, k: int)
    requires 0 <= k < |code| && IsAsciiDigit(code[k])
    requires forall s :: s in dir ==> code[k] !in s.name
    ensures Match(dir, code) == []
  {
    var c := code[k];
    assert Lower(code)[k] == c;
    forall s | s in dir
      ensures !NameMatches(s.name, code)
    {
      LowerMissing(s.name, c, c);
      MissingCharNotContained(Lower(code), Lower(s.name), k);
    }
    NothingMatches(dir, code);
  }

  lemma {:induction false} NothingMatches(dir: Directory, query: string)
    requires forall s :: s in dir ==> !NameMatches(s.name, query)
    ensures Match(dir, query) == []
  {
    if dir != [] {
      assert dir[0] in dir;
      NothingMatches(dir[1..], query);
    }
  }

  /** For example, looking up "100001" by its code. */
  lemma SearchByCodeExample(dir: Directory, code: string)
    requires dir == [Scheme("100001", "Alpha Growth Fund")] && code == "100001"
    ensures Match(dir, code) == []
  {
    assert code[0] == '1';
    SearchByCodeFindsNothing(dir, code, 0);
  }

  /** Upper and lower case in the query make no difference. */
  lemma MatchIgnoresQueryCase(dir: Directory, query: string)
    ensures Match(dir, Lower(query)) == Match(dir, query)
  {
    LowerIdempotent(query);
    MatchSameDecisions(dir, Lower(query), query);
  }

  lemma {:induction false} MatchSameDecisions(dir: Directory, q1: string, q2: string)
    requires forall s :: s in dir ==> (NameMatches(s.name, q1) <==> NameMatches(s.name, q2))
    ensures Match(dir, q1) == Match(dir, q2)
  {
    if dir != [] {
      assert dir[0] in dir;
      MatchSameDecisions(dir[1..], q1, q2);
    }
  }

  /** Without the guard at mf.py:62 an empty query would return the whole
      directory, since the empty string is in every name. */
  lemma {:induction false} EmptyQueryMatchesAll(dir: Directory)
    ensures Match(dir, "") == dir
  {
    if dir != [] {
      EmptyIsEverywhere(Lower(dir[0].name));
      EmptyQueryMatchesAll(dir[1..]);
    }
  }

  /** Searching the result again with the same query changes nothing. */
  lemma {:induction false} MatchIdempotent(dir: Directory, query: string)
    ensures Match(Match(dir, query), query) == Match(dir, query)
  {
    if dir != [] {
      MatchIdempotent(dir[1..], query);
    }
  }

  /** The case-insensitive search of an example directory. */
  lemma AlphaExample(dir: Directory, query: string)
    requires dir == [Scheme("100001", "Alpha Growth Fund"), Scheme("100002", "Beta Bond Fund")]
    requires query == "alpha"
    ensures Match(dir, query) == [Scheme("100001", "Alpha Growth Fund")]
  {
    AlphaInAlphaGrowth(dir[0].name, query);
    AlphaNotInBetaBond(dir[1].name, query);
    MatchPair(dir[0], dir[1], query);
    assert dir == [dir[0], dir[1]];
  }

  lemma MatchPair(a: Scheme, b: Scheme, query: string)
    requires NameMatches(a.name, query) && !NameMatches(b.name, query)
    ensures Match([a, b], query) == [a]
  {
    assert [a, b][1..] == [b];
    assert [b][1..] == [];
  }

  lemma AlphaInAlphaGrowth(name: string, query: string)
    requires name == "Alpha Growth Fund" && query == "alpha"
    ensures NameMatches(name, query)
  {
    var head, tail := name[..5], name[5..];
    assert name == head + tail;
    LowerAppend(head, tail);
    assert Lower(head) == query by {
      assert LowerChar('A') == 'a';
    }
    assert Lower(query) == query;
    ContainsAtStart(query, Lower(tail));
  }

  lemma AlphaNotInBetaBond(name: string, query: string)
    requires name == "Beta Bond Fund" && query == "alpha"
    ensures !NameMatches(name, query)
  {
    var q := Lower(query);
    assert q[1] == 'l';
    assert 'l' !in name && 'L' !in name;
    LowerMissing(name, 'l', 'L');
    MissingCharNotContained(q, Lower(name), 1);
  }
}
