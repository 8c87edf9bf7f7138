/**
 * Duplicate-free lists. The source turns lists into sets and back
 * (`list(set(...))`) and appends items "if not already present"; both are
 * modelled by `AddMissing`, which keeps the first occurrence of every item.
 */
module Lists {

  predicate NoDup<T(==, !new)>(xs: seq<T>) {
    forall i, j :: 0 <= i < j < |xs| ==> xs[i] != xs[j]
  }

  /** Appends to `acc`, in order, each item of `items` that is not yet present. */
  function AddMissing<T(==, !new)>(acc: seq<T>, items: seq<T>): (r: seq<T>)
    ensures |acc| <= |r| && r[..|acc|] == acc
    ensures forall x :: x in r <==> x in acc || x in items
    ensures NoDup(acc) ==> NoDup(r)
  {
    if items == [] then acc
    else
      var a := AddMissing(acc, items[..|items| - 1]);
      var x := items[|items| - 1];
      if x in a then a else a + [x]
  }

  /** `list(set(xs))`, with the first-occurrence order. */
  function Dedup<T(==, !new)>(xs: seq<T>): (r: seq<T>)
    ensures NoDup(r)
    ensures forall x :: x in r <==> x in xs
  {
    AddMissing([], xs)
  }

  /** `list(set(a + b))`: the set union of two lists. */
  function Union<T(==, !new)>(a: seq<T>, b: seq<T>): (r: seq<T>)
    ensures NoDup(r)
    ensures forall x :: x in r <==> x in a || x in b
  {
    Dedup(a + b)
  }

  /** One more item: appended when it is not yet present. */
  lemma AddMissingStep<T(!new)>(acc: seq<T>, items: seq<T>, k: nat)
    requires k < |items|
    ensures AddMissing(acc, items[..k + 1]) ==
              var a := AddMissing(acc, items[..k]);
              if items[k] in a then a else a + [items[k]]
  {
    assert items[..k + 1][..k] == items[..k];
  }

  /** Feeding two batches one after the other is feeding their concatenation. */
  lemma {:induction false} AddMissingConcat<T(!new)>(acc: seq<T>, xs: seq<T>, ys: seq<T>)
    ensures AddMissing(acc, xs + ys) == AddMissing(AddMissing(acc, xs), ys)
    decreases |ys|
  {
    if ys == [] {
      assert xs + ys == xs;
    } else {
      var ys' := ys[..|ys| - 1];
      assert (xs + ys)[..|xs + ys| - 1] == xs + ys';
      assert (xs + ys)[|xs + ys| - 1] == ys[|ys| - 1];
      AddMissingConcat(acc, xs, ys');
    }
  }

  /** Items that are all present already change nothing. */
  lemma {:induction false} AddMissingPresent<T(!new)>(acc: seq<T>, items: seq<T>)
    requires forall x :: x in items ==> x in acc
    ensures AddMissing(acc, items) == acc
    decreases |items|
  {
    if items != [] {
      var items' := items[..|items| - 1];
      assert forall x :: x in items' ==> x in items;
      AddMissingPresent(acc, items');
      assert items[|items| - 1] in items;
    }
  }

  /** A list that is already duplicate-free is its own deduplication. */
  lemma {:induction false} DedupOfNoDup<T(!new)>(xs: seq<T>)
    requires NoDup(xs)
    ensures Dedup(xs) == xs
    decreases |xs|
  {
    if xs != [] {
      var xs' := xs[..|xs| - 1];
      assert NoDup(xs');
      DedupOfNoDup(xs');
      assert xs[|xs| - 1] !in xs';
      assert xs' + [xs[|xs| - 1]] == xs;
    }
  }

  /** The union of a duplicate-free list with itself is that list. */
  lemma UnionSelf<T(!new)>(a: seq<T>)
    requires NoDup(a)
    ensures Union(a, a) == a
  {
    AddMissingConcat([], a, a);
    DedupOfNoDup(a);
    AddMissingPresent(a, a);
  }
}
