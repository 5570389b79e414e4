/** Keeping the present values of a sequence of options, in order. */
module Sequences {
  import opened Wrappers

  /** The values of the `Some` entries of `xs`, in the order they appear
      (the shape of every `filter` and of every conditional `push` loop). */
  function Compact<T>(xs: seq<Option<T>>): (r: seq<T>)
    ensures |r| <= |xs|
    decreases |xs|
  {
    if xs == [] then []
    else Compact(xs[..|xs| - 1]) + (match xs[|xs| - 1] case Some(v) => [v] case None => [])
  }

  /** The positions of the `Some` entries of `xs`, in increasing order. */
  function PresentAt<T>(xs: seq<Option<T>>): (ps: seq<nat>)
    ensures forall k :: 0 <= k < |ps| ==> ps[k] < |xs|
    decreases |xs|
  {
    if xs == [] then []
    else PresentAt(xs[..|xs| - 1]) + (if xs[|xs| - 1].Some? then [|xs| - 1] else [])
  }

  /** How many entries of `xs` are `None`. */
  function CountAbsent<T>(xs: seq<Option<T>>): nat
    decreases |xs|
  {
    if xs == [] then 0
    else CountAbsent(xs[..|xs| - 1]) + (if xs[|xs| - 1].None? then 1 else 0)
  }

  /** Extending the input by one entry extends the output by that entry's value, if any. */
  lemma {:induction false} CompactSnoc<T>(xs: seq<Option<T>>, i: nat)
    requires i < |xs|
    ensures Compact(xs[..i + 1]) == Compact(xs[..i]) + (match xs[i] case Some(v) => [v] case None => [])
  {
    assert xs[..i + 1][..i] == xs[..i];
  }

  /** `Compact` keeps exactly the present entries, each once, in their original order. */
  lemma {:induction false} CompactPositions<T>(xs: seq<Option<T>>)
    ensures |Compact(xs)| == |PresentAt(xs)|
    ensures forall k :: 0 <= k < |PresentAt(xs)| ==>
      PresentAt(xs)[k] < |xs| && xs[PresentAt(xs)[k]] == Some(Compact(xs)[k])
    ensures forall k, l :: 0 <= k < l < |PresentAt(xs)| ==> PresentAt(xs)[k] < PresentAt(xs)[l]
    ensures forall j :: 0 <= j < |xs| ==> (j in PresentAt(xs) <==> xs[j].Some?)
    decreases |xs|
  {
    if xs != [] {
      var n := |xs| - 1;
      var init := xs[..n];
      CompactPositions(init);
      var ps, cs := PresentAt(init), Compact(init);
      assert Positions(init, ps, cs);
      PositionsSnoc(xs, ps, cs);
      assert PresentAt(xs) == ps + (if xs[n].Some? then [n] else []);
      assert Compact(xs) == cs + (match xs[n] case Some(v) => [v] case None => []);
    }
  }

  /** `ps` are the positions of the `Some` entries of `xs`, in increasing
      order, and `cs` their values. */
  ghost predicate Positions<T>(xs: seq<Option<T>>, ps: seq<nat>, cs: seq<T>) {
    && |cs| == |ps|
    && (forall k :: 0 <= k < |ps| ==> ps[k] < |xs| && xs[ps[k]] == Some(cs[k]))
    && (forall k, l :: 0 <= k < l < |ps| ==> ps[k] < ps[l])
    && (forall j :: 0 <= j < |xs| ==> (j in ps <==> xs[j].Some?))
  }

  /** One more entry adds its position and value, if it is present. */
  lemma PositionsSnoc<T>(xs: seq<Option<T>>, ps: seq<nat>, cs: seq<T>)
    requires xs != [] && Positions(xs[..|xs| - 1], ps, cs)
    ensures var n := |xs| - 1;
      Positions(xs, ps + (if xs[n].Some? then [n] else []), cs + (match xs[n] case Some(v) => [v] case None => []))
  {
    var n := |xs| - 1;
    assert forall j :: 0 <= j < n ==> xs[..n][j] == xs[j];
    if xs[n].Some? {
      var ps', cs' := ps + [n], cs + [xs[n].value];
      assert forall k :: 0 <= k < |ps| ==> ps'[k] == ps[k] && cs'[k] == cs[k];
      assert Positions(xs, ps', cs');
    } else {
      assert Positions(xs, ps, cs);
      assert ps + [] == ps && cs + [] == cs;
    }
  }

  /** Every entry is either kept or counted as absent. */
  lemma {:induction false} CompactCount<T>(xs: seq<Option<T>>)
    ensures |Compact(xs)| + CountAbsent(xs) == |xs|
    decreases |xs|
  {
    if xs != [] {
      CompactCount(xs[..|xs| - 1]);
    }
  }

  /** How many entries of `bs` are true. */
  function CountTrue(bs: seq<bool>): nat
    decreases |bs|
  {
    if bs == [] then 0
    else CountTrue(bs[..|bs| - 1]) + (if bs[|bs| - 1] then 1 else 0)
  }

  /** When every marked position holds either a present entry or a skipped one,
      and never both, the kept entries and the skipped ones add up to the marked ones. */
  lemma {:induction false} CompactCountSplit<T>(xs: seq<Option<T>>, marked: seq<bool>, skipped: seq<bool>)
    requires |xs| == |marked| == |skipped|
    requires forall i :: 0 <= i < |xs| ==>
      marked[i] == (xs[i].Some? || skipped[i]) && !(xs[i].Some? && skipped[i])
    ensures |Compact(xs)| + CountTrue(skipped) == CountTrue(marked)
    decreases |xs|
  {
    if xs != [] {
      var n := |xs| - 1;
      CompactCountSplit(xs[..n], marked[..n], skipped[..n]);
    }
  }

  /** When every entry is present, `Compact` drops nothing. */
  lemma {:induction false} CompactAllPresent<T>(xs: seq<Option<T>>, ys: seq<T>)
    requires |xs| == |ys|
    requires forall k :: 0 <= k < |xs| ==> xs[k] == Some(ys[k])
    ensures Compact(xs) == ys
    decreases |xs|
  {
    if xs != [] {
      CompactAllPresent(xs[..|xs| - 1], ys[..|ys| - 1]);
      assert ys == ys[..|ys| - 1] + [ys[|ys| - 1]];
    }
  }

  /** A sequence whose entries from `from` to `i` each equal the one before
      holds the same value at `i` as at `from`. */
  lemma {:induction false} SameFrom<T>(xs: seq<T>, from: nat, i: nat)
    requires from <= i < |xs|
    requires forall j :: from < j <= i ==> xs[j] == xs[j - 1]
    ensures xs[i] == xs[from]
    decreases i
  {
    if i > from {
      SameFrom(xs, from, i - 1);
    }
  }
}
