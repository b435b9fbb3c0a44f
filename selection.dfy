/** The file, USB and process detectors each walk a list of host facts in
    order and produce one item for each fact that passes its test. `Select`
    is that walk; the lemmas below characterise it exactly: one item per
    qualifying fact, in the order of the facts, and nothing for the others. */
module Selection {

  /** Keep the facts that pass `keep`, turning each into `make` of it, in order. */
  function Select<T, R>(xs: seq<T>, keep: T -> bool, make: T -> R): seq<R>
    decreases |xs|
  {
    if |xs| == 0 then []
    else Select(xs[..|xs| - 1], keep, make) + (if keep(xs[|xs| - 1]) then [make(xs[|xs| - 1])] else [])
  }

  /** What one more fact at the end of the list adds. */
  lemma SelectSnoc<T, R>(xs: seq<T>, x: T, keep: T -> bool, make: T -> R)
    ensures Select(xs + [x], keep, make) == Select(xs, keep, make) + (if keep(x) then [make(x)] else [])
  {
    assert (xs + [x])[..|xs|] == xs;
  }

  /** The positions of the facts that pass `keep`, in increasing order. */
  function KeptIndices<T>(xs: seq<T>, keep: T -> bool): (idx: seq<nat>)
    ensures forall k :: 0 <= k < |idx| ==> idx[k] < |xs| && keep(xs[idx[k]])
    ensures forall k, l :: 0 <= k < l < |idx| ==> idx[k] < idx[l]
    ensures forall i :: 0 <= i < |xs| && keep(xs[i]) ==> i in idx
    decreases |xs|
  {
    if |xs| == 0 then []
    else
      var front := xs[..|xs| - 1];
      var rest := KeptIndices(front, keep);
      assert forall i :: 0 <= i < |front| ==> front[i] == xs[i];
      rest + (if keep(xs[|xs| - 1]) then [|xs| - 1] else [])
  }

  /** The k-th selected item comes from the k-th qualifying fact. */
  lemma {:induction false} SelectIndexed<T, R>(xs: seq<T>, keep: T -> bool, make: T -> R)
    ensures |Select(xs, keep, make)| == |KeptIndices(xs, keep)|
    ensures forall k :: 0 <= k < |KeptIndices(xs, keep)| ==>
              Select(xs, keep, make)[k] == make(xs[KeptIndices(xs, keep)[k]])
    decreases |xs|
  {
    if |xs| > 0 {
      var n := |xs| - 1;
      var front := xs[..n];
      SelectIndexed(front, keep, make);
      var r, r0 := Select(xs, keep, make), Select(front, keep, make);
      var idx, idx0 := KeptIndices(xs, keep), KeptIndices(front, keep);
      assert r == r0 + (if keep(xs[n]) then [make(xs[n])] else []);
      assert idx == idx0 + (if keep(xs[n]) then [n] else []);
      forall k | 0 <= k < |idx|
        ensures r[k] == make(xs[idx[k]])
      {
        if k < |idx0| {
          assert front[idx0[k]] == xs[idx0[k]];
        }
      }
    }
  }

  /** An item is selected exactly when some qualifying fact produces it. */
  lemma SelectMember<T, R>(xs: seq<T>, keep: T -> bool, make: T -> R, y: R)
    ensures y in Select(xs, keep, make) <==> exists i :: 0 <= i < |xs| && keep(xs[i]) && make(xs[i]) == y
  {
    var r, idx := Select(xs, keep, make), KeptIndices(xs, keep);
    SelectIndexed(xs, keep, make);
    if y in r {
      var k :| 0 <= k < |r| && r[k] == y;
      assert keep(xs[idx[k]]) && make(xs[idx[k]]) == y;
    }
    if exists i :: 0 <= i < |xs| && keep(xs[i]) && make(xs[i]) == y {
      var i :| 0 <= i < |xs| && keep(xs[i]) && make(xs[i]) == y;
      var k :| 0 <= k < |idx| && idx[k] == i;
      assert r[k] == y;
    }
  }

  /** The set of positions whose fact passes `keep`. */
  function KeptSet<T>(xs: seq<T>, keep: T -> bool): set<nat>
  {
    set i: nat | i < |xs| && keep(xs[i])
  }

  /** Exactly one item per qualifying fact. */
  lemma {:induction false} SelectCount<T, R>(xs: seq<T>, keep: T -> bool, make: T -> R)
    ensures |Select(xs, keep, make)| == |KeptSet(xs, keep)|
    decreases |xs|
  {
    if |xs| > 0 {
      var n := |xs| - 1;
      var front := xs[..n];
      SelectCount(front, keep, make);
      assert forall i :: 0 <= i < n ==> front[i] == xs[i];
      if keep(xs[n]) {
        assert KeptSet(xs, keep) == KeptSet(front, keep) + {n};
      } else {
        assert KeptSet(xs, keep) == KeptSet(front, keep);
      }
    } else {
      assert KeptSet(xs, keep) == {};
    }
  }
}
