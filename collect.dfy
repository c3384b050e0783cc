/**
 * The shape of the importer's record loop: run a step on each element and keep
 * the results that are present.
 */
module Collect {
  import opened Options

  /** The values present in `xs`, in order: what a loop that skips the missing ones collects. */
  function Present<T>(xs: seq<Option<T>>): seq<T>
    decreases |xs|
  {
    if xs == [] then []
    else
      var earlier := Present(xs[..|xs| - 1]);
      match xs[|xs| - 1]
      case None => earlier
      case Some(x) => earlier + [x]
  }

  /** One more element: its value is collected when it is present. */
  lemma PresentSnoc<T>(xs: seq<Option<T>>, x: Option<T>)
    ensures Present(xs + [x]) == if x.Some? then Present(xs) + [x.value] else Present(xs)
  {
    assert (xs + [x])[..|xs|] == xs;
  }

  /** Collecting one more element of `xs`: its value is collected when it is present. */
  lemma PresentPrefixStep<T>(xs: seq<Option<T>>, i: nat)
    requires i < |xs|
    ensures Present(xs[..i + 1]) == if xs[i].Some? then Present(xs[..i]) + [xs[i].value] else Present(xs[..i])
  {
    assert xs[..i + 1] == xs[..i] + [xs[i]];
    PresentSnoc(xs[..i], xs[i]);
  }

  /** No more values than elements. */
  lemma {:induction false} PresentLength<T>(xs: seq<Option<T>>)
    ensures |Present(xs)| <= |xs|
    ensures |Present(xs)| == |xs| <==> forall j :: 0 <= j < |xs| ==> xs[j].Some?
    decreases |xs|
  {
    if xs != [] {
      var front := xs[..|xs| - 1];
      PresentLength(front);
      if |Present(xs)| == |xs| {
        forall j | 0 <= j < |xs|
          ensures xs[j].Some?
        {
          if j < |front| {
            assert xs[j] == front[j];
          }
        }
      }
    }
  }

  /** As many values as elements that hold one. */
  lemma {:induction false} PresentCount<T>(xs: seq<Option<T>>)
    ensures |Present(xs)| == |set j | 0 <= j < |xs| && xs[j].Some?|
    decreases |xs|
  {
    if xs != [] {
      var n := |xs| - 1;
      var front := xs[..n];
      PresentCount(front);
      var before := set j | 0 <= j < |front| && front[j].Some?;
      var all := set j | 0 <= j < |xs| && xs[j].Some?;
      assert n !in before;
      if xs[n].Some? {
        assert all == before + {n};
      } else {
        assert all == before;
      }
    }
  }

  /** Where a collected value comes from: an element holding exactly it. */
  lemma {:induction false} PresentSource<T>(xs: seq<Option<T>>, k: nat) returns (j: nat)
    requires k < |Present(xs)|
    ensures j < |xs| && xs[j] == Some(Present(xs)[k])
    decreases |xs|
  {
    var front := xs[..|xs| - 1];
    PresentLength(front);
    if k < |Present(front)| {
      j := PresentSource(front, k);
      assert xs[j] == front[j];
    } else {
      j := |xs| - 1;
    }
  }

  /** When every element is present, the values are all of them, in order. */
  lemma {:induction false} PresentEvery<T>(xs: seq<Option<T>>)
    requires forall j :: 0 <= j < |xs| ==> xs[j].Some?
    ensures |Present(xs)| == |xs|
    ensures forall k :: 0 <= k < |xs| ==> Present(xs)[k] == xs[k].value
    decreases |xs|
  {
    if xs != [] {
      var front := xs[..|xs| - 1];
      assert forall j :: 0 <= j < |front| ==> front[j] == xs[j];
      PresentEvery(front);
    }
  }

  /** When no element is present, nothing is collected. */
  lemma {:induction false} PresentNone<T>(xs: seq<Option<T>>)
    requires forall j :: 0 <= j < |xs| ==> xs[j].None?
    ensures Present(xs) == []
    decreases |xs|
  {
    if xs != [] {
      var front := xs[..|xs| - 1];
      assert forall j :: 0 <= j < |front| ==> front[j] == xs[j];
      PresentNone(front);
    }
  }
}
