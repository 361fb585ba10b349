/** Filter-map over a sequence: apply a partial conversion to every element
    in order and keep the results of the ones that convert. This is the
    shape of a loop that appends converted items and skips failures. */
module FilterMaps {
  import opened Results

  function FilterMap<A, B>(f: A -> Option<B>, xs: seq<A>): (ys: seq<B>)
    ensures |ys| <= |xs|
  {
    if xs == [] then []
    else
      var ys := FilterMap(f, xs[..|xs| - 1]);
      match f(xs[|xs| - 1])
      case Some(y) => ys + [y]
      case None => ys
  }

  /** The positions of the elements that convert, in increasing order. */
  function Kept<A, B>(f: A -> Option<B>, xs: seq<A>): (ks: seq<nat>)
    ensures forall k :: 0 <= k < |ks| ==> ks[k] < |xs| && f(xs[ks[k]]).Some?
    ensures forall j :: 0 <= j < |xs| && f(xs[j]).Some? ==> j in ks
    ensures forall a, b :: 0 <= a < b < |ks| ==> ks[a] < ks[b]
  {
    if xs == [] then []
    else
      var ks := Kept(f, xs[..|xs| - 1]);
      if f(xs[|xs| - 1]).Some? then ks + [|xs| - 1] else ks
  }

  /** One more element of the prefix adds its converted value, if any. */
  lemma FilterMapPrefix<A, B>(f: A -> Option<B>, xs: seq<A>, i: nat)
    requires i < |xs|
    ensures FilterMap(f, xs[..i + 1]) == FilterMap(f, xs[..i]) + (if f(xs[i]).Some? then [f(xs[i]).value] else [])
  {
    assert xs[..i + 1][..i] == xs[..i];
  }

  /** The k-th output is the converted value of the k-th converting element. */
  lemma {:induction false} FilterMapKept<A, B>(f: A -> Option<B>, xs: seq<A>)
    ensures |FilterMap(f, xs)| == |Kept(f, xs)|
    ensures forall k :: 0 <= k < |Kept(f, xs)| ==> f(xs[Kept(f, xs)[k]]) == Some(FilterMap(f, xs)[k])
  {
    if xs != [] {
      var init := xs[..|xs| - 1];
      FilterMapKept(f, init);
      assert forall j :: 0 <= j < |init| ==> init[j] == xs[j];
    }
  }

  /** Filter-mapping two pieces and joining the outputs is filter-mapping the whole. */
  lemma {:induction false} FilterMapConcat<A, B>(f: A -> Option<B>, a: seq<A>, b: seq<A>)
    ensures FilterMap(f, a + b) == FilterMap(f, a) + FilterMap(f, b)
    decreases |b|
  {
    if b != [] {
      var b' := b[..|b| - 1];
      assert (a + b)[..|a + b| - 1] == a + b';
      assert (a + b)[|a + b| - 1] == b[|b| - 1];
      FilterMapConcat(f, a, b');
    } else {
      assert a + b == a;
    }
  }

  lemma FilterMapSingle<A, B>(f: A -> Option<B>, x: A)
    ensures FilterMap(f, [x]) == if f(x).Some? then [f(x).value] else []
  {
    assert [x][..0] == [];
  }

  /** Filter-mapping a two-element sequence, one outcome per element. */
  lemma FilterMapPair<A, B>(f: A -> Option<B>, x0: A, x1: A)
    ensures FilterMap(f, [x0, x1]) == FilterMap(f, [x0]) + FilterMap(f, [x1])
  {
    FilterMapConcat(f, [x0], [x1]);
    assert [x0, x1] == [x0] + [x1];
  }

  /** An element that does not convert is skipped on its own: the elements
      after it are still processed. */
  lemma FilterMapSkips<A, B>(f: A -> Option<B>, a: seq<A>, x: A, b: seq<A>)
    requires f(x).None?
    ensures FilterMap(f, a + [x] + b) == FilterMap(f, a) + FilterMap(f, b)
  {
    FilterMapConcat(f, a + [x], b);
    FilterMapConcat(f, a, [x]);
    assert [x][..0] == [];
  }

  /** The output is empty exactly when no element converts. */
  lemma FilterMapEmpty<A, B>(f: A -> Option<B>, xs: seq<A>)
    ensures FilterMap(f, xs) == [] <==> forall j :: 0 <= j < |xs| ==> f(xs[j]).None?
  {
    FilterMapKept(f, xs);
    var ks := Kept(f, xs);
    if ks != [] {
      assert f(xs[ks[0]]).Some?;
    }
  }

  /** Convert every element, failing as a whole when any element fails. */
  function MapAll<A, B>(f: A -> Option<B>, xs: seq<A>): (r: Option<seq<B>>)
    ensures r.Some? <==> forall k :: 0 <= k < |xs| ==> f(xs[k]).Some?
    ensures r.Some? ==> |r.value| == |xs| && forall k :: 0 <= k < |xs| ==> f(xs[k]) == Some(r.value[k])
  {
    if xs == [] then Some([])
    else
      match MapAll(f, xs[..|xs| - 1])
      case None => None
      case Some(ys) =>
        match f(xs[|xs| - 1])
        case None => None
        case Some(y) => Some(ys + [y])
  }
}
