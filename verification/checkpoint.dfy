/** The set of finished chapters (engine/checkpoint_manager.py). The checkpoint
    file is `Option<seq<int>>`: absent, or the stored `done_chapters` list. */
module Checkpoint {
  import opened Wrappers

  function Elems(xs: seq<int>): set<int> {
    set x | x in xs
  }

  predicate StrictlyIncreasing(xs: seq<int>) {
    forall i, j :: 0 <= i < j < |xs| ==> xs[i] < xs[j]
  }

  /** `load_checkpoint()` */
  function LoadCheckpoint(file: Option<seq<int>>): (r: set<int>)
    ensures file.None? ==> r == {}
    ensures file.Some? ==> forall x :: x in r <==> x in file.value
  {
    match file
    case None => {}
    case Some(xs) => Elems(xs)
  }

  lemma ElemsCons(x: int, xs: seq<int>)
    ensures Elems([x] + xs) == {x} + Elems(xs)
  {
    assert forall y :: y in [x] + xs <==> y == x || y in xs;
  }

  lemma ConsIncreasing(x: int, xs: seq<int>)
    requires StrictlyIncreasing(xs)
    requires forall y :: y in Elems(xs) ==> x < y
    ensures StrictlyIncreasing([x] + xs)
  {
    var r := [x] + xs;
    forall i, j | 0 <= i < j < |r| ensures r[i] < r[j] {
      assert r[j] == xs[j - 1];
      assert xs[j - 1] in Elems(xs);
      if i > 0 {
        assert r[i] == xs[i - 1];
      }
    }
  }

  /** The head of a strictly increasing list is its least element. */
  lemma HeadLeast(xs: seq<int>)
    requires StrictlyIncreasing(xs) && xs != []
    ensures forall y :: y in Elems(xs) ==> xs[0] <= y
    ensures forall y :: y in Elems(xs[1..]) ==> xs[0] < y
  {
    forall y | y in Elems(xs) ensures xs[0] <= y {
      var k :| 0 <= k < |xs| && xs[k] == y;
    }
    forall y | y in Elems(xs[1..]) ensures xs[0] < y {
      var k :| 0 <= k < |xs| - 1 && xs[1..][k] == y;
      assert xs[1..][k] == xs[k + 1];
    }
  }

  /** Insertion into a strictly increasing list, ignoring a value already present. */
  function Insert(x: int, xs: seq<int>): (r: seq<int>)
    requires StrictlyIncreasing(xs)
    ensures StrictlyIncreasing(r)
    ensures Elems(r) == Elems(xs) + {x}
  {
    if xs == [] then [x]
    else if x < xs[0] then
      HeadLeast(xs);
      ElemsCons(x, xs);
      ConsIncreasing(x, xs);
      [x] + xs
    else if x == xs[0] then
      ElemsCons(xs[0], xs[1..]);
      assert [xs[0]] + xs[1..] == xs;
      xs
    else
      assert StrictlyIncreasing(xs[1..]) by {
        forall i, j | 0 <= i < j < |xs| - 1 ensures xs[1..][i] < xs[1..][j] {
          assert xs[1..][i] == xs[i + 1] && xs[1..][j] == xs[j + 1];
        }
      }
      var rest := Insert(x, xs[1..]);
      HeadLeast(xs);
      ElemsCons(xs[0], xs[1..]);
      assert [xs[0]] + xs[1..] == xs;
      ElemsCons(xs[0], rest);
      ConsIncreasing(xs[0], rest);
      [xs[0]] + rest
  }

  /** `sorted(set(xs))` */
  function SortedSet(xs: seq<int>): (r: seq<int>)
    ensures StrictlyIncreasing(r)
    ensures Elems(r) == Elems(xs)
  {
    if xs == [] then []
    else
      assert Elems(xs) == Elems(xs[..|xs| - 1]) + {xs[|xs| - 1]} by {
        assert xs == xs[..|xs| - 1] + [xs[|xs| - 1]];
      }
      Insert(xs[|xs| - 1], SortedSet(xs[..|xs| - 1]))
  }

  /** `mark_done(idx)`: the list written back to the file. */
  function MarkDone(file: Option<seq<int>>, idx: int): (r: seq<int>)
    ensures StrictlyIncreasing(r)
    ensures LoadCheckpoint(Some(r)) == LoadCheckpoint(file) + {idx}
  {
    var old_ := match file case None => [] case Some(xs) => xs;
    SortedSet(old_ + [idx])
  }

  lemma EmptyElems(xs: seq<int>)
    ensures xs == [] <==> Elems(xs) == {}
  {
    if xs != [] {
      assert xs[0] in Elems(xs);
    }
  }

  lemma TailIncreasing(xs: seq<int>)
    requires StrictlyIncreasing(xs) && xs != []
    ensures StrictlyIncreasing(xs[1..])
    ensures Elems(xs) == {xs[0]} + Elems(xs[1..])
    ensures xs[0] !in Elems(xs[1..])
  {
    forall i, j | 0 <= i < j < |xs| - 1 ensures xs[1..][i] < xs[1..][j] {
      assert xs[1..][i] == xs[i + 1] && xs[1..][j] == xs[j + 1];
    }
    HeadLeast(xs);
    ElemsCons(xs[0], xs[1..]);
    assert [xs[0]] + xs[1..] == xs;
  }

  /** Two strictly increasing lists with the same elements are equal. */
  lemma {:induction false} IncreasingUnique(a: seq<int>, b: seq<int>)
    requires StrictlyIncreasing(a) && StrictlyIncreasing(b)
    requires Elems(a) == Elems(b)
    ensures a == b
    decreases |a|
  {
    EmptyElems(a);
    EmptyElems(b);
    if a != [] && b != [] {
      HeadLeast(a);
      HeadLeast(b);
      assert a[0] in Elems(a) && b[0] in Elems(b);
      assert a[0] == b[0];
      TailIncreasing(a);
      TailIncreasing(b);
      assert Elems(a[1..]) == Elems(b[1..]);
      IncreasingUnique(a[1..], b[1..]);
      assert a == [a[0]] + a[1..];
      assert b == [b[0]] + b[1..];
    }
  }

  /** Marking a chapter twice writes the same file as marking it once. */
  lemma MarkDoneIdempotent(file: Option<seq<int>>, idx: int)
    ensures MarkDone(Some(MarkDone(file, idx)), idx) == MarkDone(file, idx)
  {
    var once := MarkDone(file, idx);
    var twice := MarkDone(Some(once), idx);
    assert Elems(twice) == Elems(once) by {
      assert LoadCheckpoint(Some(once)) == LoadCheckpoint(file) + {idx};
    }
    IncreasingUnique(twice, once);
  }

  /** The written list is exactly the sorted, duplicate-free set of done chapters:
      the order in which chapters were marked does not matter. */
  lemma MarkDoneCommutes(file: Option<seq<int>>, i: int, j: int)
    ensures MarkDone(Some(MarkDone(file, i)), j) == MarkDone(Some(MarkDone(file, j)), i)
  {
    var a := MarkDone(Some(MarkDone(file, i)), j);
    var b := MarkDone(Some(MarkDone(file, j)), i);
    MarkTwiceSameElems(file, i, j);
    IncreasingUnique(a, b);
  }

  lemma MarkTwiceSameElems(file: Option<seq<int>>, i: int, j: int)
    ensures Elems(MarkDone(Some(MarkDone(file, i)), j)) == Elems(MarkDone(Some(MarkDone(file, j)), i))
  {
    MarkTwiceElems(file, i, j);
    MarkTwiceElems(file, j, i);
    hide *;
    assert {i, j} == {j, i};
  }

  lemma MarkTwiceElems(file: Option<seq<int>>, i: int, j: int)
    ensures Elems(MarkDone(Some(MarkDone(file, i)), j)) == LoadCheckpoint(file) + {i, j}
  {
    var once := MarkDone(file, i);
    assert LoadCheckpoint(Some(once)) == LoadCheckpoint(file) + {i};
    assert LoadCheckpoint(Some(MarkDone(Some(once), j))) == LoadCheckpoint(file) + {i} + {j};
  }
}
