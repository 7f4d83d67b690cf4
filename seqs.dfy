/** Generic sequence helpers shared by the library pages: an optional value
    (which also stands for a NumPy/pandas NaN) and an order-preserving filter,
    the shape of every "keep the rows that ..." step in the pages. */
module Seqs {

  datatype Option<T> = None | Some(value: T) {
    function GetOr(default: T): T {
      match this
      case Some(v) => v
      case None => default
    }
  }

  /** The elements of `s` that satisfy `p`, in their original order. */
  function Filter<T>(s: seq<T>, p: T -> bool): (r: seq<T>)
    ensures |r| <= |s|
    ensures forall i :: 0 <= i < |r| ==> r[i] in s && p(r[i])
    ensures forall i :: 0 <= i < |s| && p(s[i]) ==> s[i] in r
  {
    if s == [] then []
    else
      var rest := Filter(s[1..], p);
      assert forall i :: 1 <= i < |s| ==> s[i] == s[1..][i - 1];
      if p(s[0]) then [s[0]] + rest else rest
  }

  /** Filtering distributes over concatenation: together with FilterSingleton
      this pins Filter down completely, order included. */
  lemma {:induction false} FilterAppend<T>(s: seq<T>, t: seq<T>, p: T -> bool)
    ensures Filter(s + t, p) == Filter(s, p) + Filter(t, p)
  {
    if s == [] {
      assert s + t == t;
    } else {
      assert (s + t)[1..] == s[1..] + t;
      FilterAppend(s[1..], t, p);
    }
  }

  lemma FilterSingleton<T>(x: T, p: T -> bool)
    ensures Filter([x], p) == if p(x) then [x] else []
  {
    assert [x][1..] == [];
  }

  /** A sequence whose elements all pass is left unchanged. */
  lemma {:induction false} FilterAll<T>(s: seq<T>, p: T -> bool)
    requires forall i :: 0 <= i < |s| ==> p(s[i])
    ensures Filter(s, p) == s
  {
    if s != [] {
      FilterAll(s[1..], p);
    }
  }

  /** Filtering twice with the same predicate is filtering once. */
  lemma FilterIdempotent<T>(s: seq<T>, p: T -> bool)
    ensures Filter(Filter(s, p), p) == Filter(s, p)
  {
    FilterAll(Filter(s, p), p);
  }

  /** Index of the first element of `s` that satisfies `p`, if there is one:
      the shape of `next(i for i, x in enumerate(s) if p(x))` and of
      `frame[mask].iloc[0]`. */
  function FirstIndex<T>(s: seq<T>, p: T -> bool): (r: Option<nat>)
    ensures r.Some? ==> r.value < |s| && p(s[r.value])
    ensures r.Some? ==> forall k :: 0 <= k < r.value ==> !p(s[k])
    ensures r.None? ==> forall k :: 0 <= k < |s| ==> !p(s[k])
  {
    if s == [] then None
    else if p(s[0]) then Some(0)
    else
      match FirstIndex(s[1..], p)
      case None => None
      case Some(k) => Some(k + 1)
  }

  /** `f` applied to each element of `s`, in order. */
  function Map<A, B>(s: seq<A>, f: A -> B): (r: seq<B>)
    ensures |r| == |s|
    ensures forall k :: 0 <= k < |s| ==> r[k] == f(s[k])
  {
    if s == [] then []
    else
      var init := Map(s[..|s| - 1], f);
      assert forall k :: 0 <= k < |s| - 1 ==> s[..|s| - 1][k] == s[k];
      init + [f(s[|s| - 1])]
  }

  /** Extending a prefix by one element appends its image. */
  lemma MapPrefix<A, B>(s: seq<A>, i: nat, f: A -> B)
    requires i < |s|
    ensures Map(s[..i + 1], f) == Map(s[..i], f) + [f(s[i])]
  {
    assert s[..i + 1][..i] == s[..i];
  }

  /** The pieces `f` makes of the elements of `s`, joined in order: the shape
      of a loop that appends what each input item yields. */
  function FlatMap<A, B>(s: seq<A>, f: A -> seq<B>): seq<B> {
    if s == [] then [] else FlatMap(s[..|s| - 1], f) + f(s[|s| - 1])
  }

  /** Appending one element appends its piece. */
  lemma FlatMapSnoc<A, B>(s: seq<A>, x: A, f: A -> seq<B>)
    ensures FlatMap(s + [x], f) == FlatMap(s, f) + f(x)
  {
    assert (s + [x])[..|s|] == s;
  }

  /** Extending a prefix by one element appends that element's piece. */
  lemma FlatMapPrefix<A, B>(s: seq<A>, i: nat, f: A -> seq<B>)
    requires i < |s|
    ensures FlatMap(s[..i + 1], f) == FlatMap(s[..i], f) + f(s[i])
  {
    assert s[..i + 1][..i] == s[..i];
  }

  /** FlatMap distributes over concatenation: each element contributes on
      its own and the pieces keep the order of the elements. */
  lemma {:induction false} FlatMapAppend<A, B>(s: seq<A>, t: seq<A>, f: A -> seq<B>)
    ensures FlatMap(s + t, f) == FlatMap(s, f) + FlatMap(t, f)
    decreases |t|
  {
    if t == [] {
      assert s + t == s;
    } else {
      var t', x := t[..|t| - 1], t[|t| - 1];
      assert t == t' + [x];
      assert s + t == (s + t') + [x];
      FlatMapSnoc(s + t', x, f);
      FlatMapAppend(s, t', f);
    }
  }

  /** Pieces of at most one element make a result no longer than the
      input. */
  lemma {:induction false} FlatMapAtMostOne<A, B>(s: seq<A>, f: A -> seq<B>)
    requires forall i :: 0 <= i < |s| ==> |f(s[i])| <= 1
    ensures |FlatMap(s, f)| <= |s|
  {
    if s != [] {
      FlatMapAtMostOne(s[..|s| - 1], f);
    }
  }
}
