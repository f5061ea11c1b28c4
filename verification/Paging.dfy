/** Page arithmetic of the inbox queries, over any ordered result. */
module Paging {

  /** Page numbers below 1 mean page 1. */
  function PageIndex(index: int): int {
    if index < 1 then 1 else index
  }

  /** Page sizes below 1 mean 10. */
  function PageSize(size: int): int {
    if size < 1 then 10 else size
  }

  function Min(a: int, b: int): int {
    if a <= b then a else b
  }

  function Window<T>(items: seq<T>, offset: int, size: nat): (page: seq<T>)
    ensures |page| <= size
  {
    if offset < 0 || |items| <= offset then [] else items[offset..Min(offset + size, |items|)]
  }

  /** OFFSET (index - 1) * size LIMIT size. */
  function Page<T>(items: seq<T>, index: int, size: int): (page: seq<T>)
    ensures |page| <= PageSize(size)
  {
    Window(items, (PageIndex(index) - 1) * PageSize(size), PageSize(size))
  }

  /** The rounded-up page count, 0 for an empty result. */
  function PagesTotal(total: nat, size: int): int {
    if total > 0 then (total + PageSize(size) - 1) / PageSize(size) else 0
  }

  /** Pages 1 to n in order; page i is cut from listing(i), the result of its own query. */
  function Tiled<T>(listing: int -> seq<T>, size: int, n: nat): seq<T> {
    if n == 0 then [] else Tiled(listing, size, n - 1) + Page(listing(n), n, size)
  }

  lemma WindowExtends<T>(items: seq<T>, offset: nat, size: nat)
    ensures items[..Min(offset, |items|)] + Window(items, offset, size) == items[..Min(offset + size, |items|)]
  {
  }

  lemma Multiple(n: nat, k: nat)
    ensures 0 <= n * k
    ensures n > 0 ==> (n - 1) * k + k == n * k
  {
  }

  lemma {:induction false} TilesArePrefix<T>(listing: int -> seq<T>, items: seq<T>, size: int, n: nat)
    requires forall i | 1 <= i <= n :: listing(i) == items
    ensures 0 <= n * PageSize(size)
    ensures Tiled(listing, size, n) == items[..Min(n * PageSize(size), |items|)]
  {
    Multiple(n, PageSize(size));
    if n > 0 {
      TilesArePrefix(listing, items, size, n - 1);
      WindowExtends(items, (n - 1) * PageSize(size), PageSize(size));
    }
  }

  /** Entry k of page `index` is entry (index - 1) * size + k of the result; bad arguments mean page 1 and size 10. */
  lemma PageAt<T>(items: seq<T>, index: int, size: int, k: nat)
    ensures index < 1 ==> Page(items, index, size) == Page(items, 1, size)
    ensures size < 1 ==> Page(items, index, size) == Page(items, index, 10)
    ensures 1 <= index && 1 <= size ==>
              (k < |Page(items, index, size)| <==> k < size && (index - 1) * size + k < |items|)
    ensures 1 <= index && 1 <= size && k < |Page(items, index, size)| ==>
              0 <= (index - 1) * size && Page(items, index, size)[k] == items[(index - 1) * size + k]
  {
    if 1 <= index && 1 <= size {
      Ordered(0, index - 1, size);
    }
  }

  lemma LastPage(total: nat, size: int)
    ensures var p := PagesTotal(total, size);
            p >= 0 && total <= p * PageSize(size) && (p > 0 ==> (p - 1) * PageSize(size) < total)
  {
    var k := PageSize(size);
    if total > 0 {
      var p := (total + k - 1) / k;
      assert total + k - 1 == p * k + (total + k - 1) % k;
      assert (p - 1) * k == p * k - k;
    }
  }

  /**
   Pages 1 to PagesTotal of a result that every query lists in the same order make up the
   whole result, without gap or repeat; no page is over size and every later page is empty.
   */
  lemma PagesCoverResult<T>(listing: int -> seq<T>, items: seq<T>, size: int)
    requires forall i :: listing(i) == items
    ensures PagesTotal(|items|, size) >= 0
    ensures Tiled(listing, size, PagesTotal(|items|, size)) == items
    ensures forall i {:trigger listing(i)} | 1 <= i <= PagesTotal(|items|, size) :: Page(listing(i), i, size) != []
    ensures forall i {:trigger listing(i)} | PagesTotal(|items|, size) < i :: Page(listing(i), i, size) == []
  {
    var p := PagesTotal(|items|, size);
    LastPage(|items|, size);
    TilesArePrefix(listing, items, size, p);
    assert items[..|items|] == items;
    forall i | 1 <= i
      ensures Page(listing(i), i, size) == [] <==> p < i
    {
      PageIsEmptyIff(items, i, size);
    }
  }

  lemma PageIsEmptyIff<T>(items: seq<T>, i: int, size: int)
    requires 1 <= i
    ensures Page(items, i, size) == [] <==> PagesTotal(|items|, size) < i
  {
    var p, k := PagesTotal(|items|, size), PageSize(size);
    LastPage(|items|, size);
    if p < i {
      Ordered(p, i - 1, k);
    } else {
      Ordered(i - 1, p - 1, k);
      Ordered(0, i - 1, k);
      var offset := (i - 1) * k;
      assert 0 <= offset < |items|;
      assert Page(items, i, size)[0] == items[offset];
    }
  }

  lemma Ordered(a: int, b: int, k: nat)
    requires a <= b
    ensures a * k <= b * k
  {
    assert (b - a) * k >= 0;
  }

  // ---- ORDER BY a strictly decreasing key ----

  ghost predicate Listing<T(!new)>(xs: seq<T>, items: set<T>, key: T -> int) {
    && (forall x :: x in xs <==> x in items)
    && (forall i, j | 0 <= i < j < |xs| :: xs[i] != xs[j])
    && (forall i, j | 0 <= i < j < |xs| :: key(xs[i]) >= key(xs[j]))
  }

  ghost predicate TieFree<T(!new)>(items: set<T>, key: T -> int) {
    forall x, y | x in items && y in items && key(x) == key(y) :: x == y
  }

  lemma HeadIsGreatest<T(!new)>(xs: seq<T>, items: set<T>, key: T -> int)
    requires Listing(xs, items, key) && xs != []
    ensures xs[0] in items && forall x | x in items :: key(x) <= key(xs[0])
  {
    assert xs[0] in xs;
    forall x | x in items
      ensures key(x) <= key(xs[0])
    {
      assert x in xs;
    }
  }

  lemma TailIsListing<T(!new)>(xs: seq<T>, items: set<T>, key: T -> int)
    requires Listing(xs, items, key) && xs != []
    ensures Listing(xs[1..], items - {xs[0]}, key)
  {
    forall x
      ensures x in xs[1..] <==> x in items - {xs[0]}
    {
      if x in xs && x != xs[0] {
        var i :| 0 <= i < |xs| && xs[i] == x;
        assert xs[1..][i - 1] == x;
      }
    }
  }

  /** Without ties the ordered listing is unique, so separate page queries see one order. */
  lemma {:induction false} ListingIsUnique<T(!new)>(xs: seq<T>, ys: seq<T>, items: set<T>, key: T -> int)
    requires Listing(xs, items, key) && Listing(ys, items, key) && TieFree(items, key)
    ensures xs == ys
    decreases |xs|
  {
    if xs == [] {
      assert forall i | 0 <= i < |ys| :: ys[i] in ys;
    } else {
      assert xs[0] in xs && ys != [];
      HeadIsGreatest(xs, items, key);
      HeadIsGreatest(ys, items, key);
      TailIsListing(xs, items, key);
      TailIsListing(ys, items, key);
      ListingIsUnique(xs[1..], ys[1..], items - {xs[0]}, key);
      assert xs == [xs[0]] + xs[1..] && ys == [ys[0]] + ys[1..];
    }
  }

  function CountIf<T>(xs: seq<T>, p: T -> bool): nat {
    if xs == [] then 0 else CountIf(xs[1..], p) + (if p(xs[0]) then 1 else 0)
  }

  /** Removing the head of a listing removes it from what was chosen. */
  lemma ChosenStep<T(!new)>(x: T, items: set<T>, p: T -> bool, chosen: set<T>)
    requires x in items && (forall y :: y in chosen <==> y in items && p(y))
    ensures |chosen| == |chosen - {x}| + (if p(x) then 1 else 0)
    ensures forall y :: y in chosen - {x} <==> y in items - {x} && p(y)
  {
    if p(x) {
      assert chosen == (chosen - {x}) + {x};
    } else {
      assert chosen == chosen - {x};
    }
  }

  /** Counting along a listing counts the set. */
  lemma {:induction false} CountIfIsSize<T(!new)>(xs: seq<T>, items: set<T>, key: T -> int, p: T -> bool, chosen: set<T>)
    requires Listing(xs, items, key) && (forall x :: x in chosen <==> x in items && p(x))
    ensures CountIf(xs, p) == |chosen|
    decreases |xs|
  {
    if xs == [] {
      assert forall x | x in chosen :: x in xs;
      assert chosen == {};
    } else {
      HeadIsGreatest(xs, items, key);
      TailIsListing(xs, items, key);
      ChosenStep(xs[0], items, p, chosen);
      CountIfIsSize(xs[1..], items - {xs[0]}, key, p, chosen - {xs[0]});
    }
  }
}
