/** Sequence helpers shared by the model: flattening nested lists and Python's
    slicing with possibly negative bounds. */
module Seqs {

  /** `[x for chunk in chunks for x in chunk]` */
  function Flatten<T>(chunks: seq<seq<T>>): seq<T> {
    if chunks == [] then [] else chunks[0] + Flatten(chunks[1..])
  }

  lemma {:induction false} FlattenAppend<T>(a: seq<seq<T>>, b: seq<seq<T>>)
    ensures Flatten(a + b) == Flatten(a) + Flatten(b)
  {
    if a == [] {
      assert a + b == b;
    } else {
      assert (a + b)[1..] == a[1..] + b;
      FlattenAppend(a[1..], b);
    }
  }

  lemma FlattenSplit<T>(chunks: seq<seq<T>>, i: nat)
    requires i <= |chunks|
    ensures Flatten(chunks) == Flatten(chunks[..i]) + Flatten(chunks[i..])
  {
    assert chunks == chunks[..i] + chunks[i..];
    FlattenAppend(chunks[..i], chunks[i..]);
  }

  /** The last `min(n, |xs|)` elements. */
  function Last<T>(xs: seq<T>, n: nat): (r: seq<T>)
    ensures |r| == if n < |xs| then n else |xs|
  {
    if n < |xs| then xs[|xs| - n..] else xs
  }

  /** Python `xs[i:]` for any integer `i`: a negative `i` counts from the end,
      and `-0` is `0`, so `xs[-0:]` is the whole list. */
  function PySliceFrom<T>(xs: seq<T>, i: int): (r: seq<T>)
    ensures i >= 0 ==> r == if i <= |xs| then xs[i..] else []
    ensures i < 0 ==> r == Last(xs, 0 - i)
  {
    if i >= 0 then (if i <= |xs| then xs[i..] else [])
    else xs[if |xs| + i < 0 then 0 else |xs| + i..]
  }

  function Reverse<T>(xs: seq<T>): (r: seq<T>)
    ensures |r| == |xs|
  {
    if xs == [] then [] else Reverse(xs[1..]) + [xs[0]]
  }

  lemma {:induction false} ReverseAppend<T>(a: seq<T>, b: seq<T>)
    ensures Reverse(a + b) == Reverse(b) + Reverse(a)
    decreases |a|
  {
    if a == [] {
      assert a + b == b;
      assert Reverse(b) + [] == Reverse(b);
    } else {
      assert (a + b)[1..] == a[1..] + b;
      assert (a + b)[0] == a[0];
      ReverseAppend(a[1..], b);
    }
  }

  lemma {:induction false} ReverseReverse<T>(xs: seq<T>)
    ensures Reverse(Reverse(xs)) == xs
    decreases |xs|
  {
    if xs != [] {
      ReverseAppend(Reverse(xs[1..]), [xs[0]]);
      assert Reverse([xs[0]]) == [xs[0]] by {
        assert [xs[0]][1..] == [];
      }
      ReverseReverse(xs[1..]);
      assert [xs[0]] + xs[1..] == xs;
    }
  }

  /** A suffix of length `n` is what `Last` keeps. */
  lemma LastOfSuffix<T>(xs: seq<T>, pre: seq<T>, suf: seq<T>, n: nat)
    requires xs == pre + suf && |suf| == n
    ensures Last(xs, n) == suf
  {
    if n < |xs| {
      assert xs[|xs| - n..] == suf;
    }
  }

  lemma LastConcatShort<T>(a: seq<T>, b: seq<T>, n: nat)
    requires n <= |b|
    ensures Last(a + b, n) == Last(b, n)
  {
    if n < |a + b| {
      assert (a + b)[|a + b| - n..] == b[|b| - n..];
    }
  }

  lemma LastConcatLong<T>(a: seq<T>, b: seq<T>, n: nat)
    requires n > |b|
    ensures Last(a + b, n) == Last(a, n - |b|) + b
  {
    if n < |a + b| {
      assert (a + b)[|a + b| - n..] == a[|a| - (n - |b|)..] + b;
    }
  }

  lemma LastLast<T>(xs: seq<T>, n: nat, k: nat)
    requires k <= n
    ensures Last(Last(xs, n), k) == Last(xs, k)
  {
    if k < n < |xs| {
      assert xs[|xs| - n..][n - k..] == xs[|xs| - k..];
    }
  }

  /** Dropping an old prefix first does not change what `Last` keeps. */
  lemma LastPrefix<T>(xs: seq<T>, ys: seq<T>, n: nat)
    ensures Last(Last(xs, n) + ys, n) == Last(xs + ys, n)
  {
    if n <= |ys| {
      LastConcatShort(Last(xs, n), ys, n);
      LastConcatShort(xs, ys, n);
    } else {
      LastConcatLong(Last(xs, n), ys, n);
      LastConcatLong(xs, ys, n);
      LastLast(xs, n, n - |ys|);
    }
  }
}
