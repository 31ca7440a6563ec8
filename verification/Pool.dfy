/** The pool allocator of memp.c: fixed-size elements carved from one block, and a free list per
    pool threaded through the free elements. */
module Pool {
  import opened Counting
  import opened Lists
  import opened PoolCycle

  /** Where pool i begins in the block. */
  function Base(sizes: seq<nat>, num: seq<nat>, i: nat): nat
    requires i <= |sizes| == |num|
  {
    if i == 0 then 0 else Base(sizes, num, i - 1) + Times(num[i - 1], sizes[i - 1])
  }

  /** The free list of a pool right after memp_init: the last of n elements first. */
  function Carved(base: nat, size: nat, n: nat): seq<int> {
    if n == 0 then [] else [base + Times(n - 1, size)] + Carved(base, size, n - 1)
  }

  predicate Linked(g: seq<int>, p: int, list: seq<int>)
    decreases |list|
  {
    if list == [] then p == NULL else p == list[0] && 0 <= p < |g| && Linked(g, g[p], list[1..])
  }

  /** The elements of a pool, as addresses in the block. */
  predicate Element(sizes: seq<nat>, num: seq<nat>, i: nat, p: int)
    requires i < |sizes| == |num|
  {
    p in Carved(Base(sizes, num, i), sizes[i], num[i])
  }

  lemma {:induction false} LinkedFrame(g: seq<int>, h: seq<int>, p: int, list: seq<int>)
    requires Linked(g, p, list) && |g| == |h|
    requires forall k :: 0 <= k < |list| && 0 <= list[k] < |g| ==> h[list[k]] == g[list[k]]
    ensures Linked(h, p, list)
    decreases |list|
  {
    if list != [] {
      assert h[list[0]] == g[list[0]];
      LinkedFrame(g, h, g[p], list[1..]);
    }
  }

  lemma {:induction false} LinkedReachesNull(g: Graph, p: int, list: seq<int>)
    requires Closed(g) && Pointer(g, p) && Linked(g, p, list)
    ensures Walk(g, p, |list|) == NULL
    decreases |list|
  {
    if list != [] { LinkedReachesNull(g, g[p], list[1..]); }
  }

  /** Elements lie in their pool one after the other, size bytes each. */
  lemma {:induction false} CarvedPlaces(base: nat, size: nat, n: nat)
    requires size > 0
    ensures |Carved(base, size, n)| == n
    ensures forall k :: 0 <= k < n ==>
              base <= Carved(base, size, n)[k] && Carved(base, size, n)[k] + size <= base + Times(n, size)
    ensures forall j, k :: 0 <= j < k < n ==> Carved(base, size, n)[k] + size <= Carved(base, size, n)[j]
  {
    if n > 0 { CarvedPlaces(base, size, n - 1); }
  }

  lemma {:induction false} BaseGrows(sizes: seq<nat>, num: seq<nat>, i: nat, j: nat)
    requires i <= j <= |sizes| == |num|
    ensures Base(sizes, num, i) <= Base(sizes, num, j)
  {
    if i < j { BaseGrows(sizes, num, i, j - 1); }
  }

  predicate Sizes(sizes: seq<nat>, num: seq<nat>) { |sizes| == |num| && forall i :: 0 <= i < |sizes| ==> sizes[i] > 0 }

  /** Elements of all pools are inside the block and overlap nowhere. */
  lemma ElementsDisjoint(sizes: seq<nat>, num: seq<nat>, i: nat, j: nat, p: int, q: int)
    requires Sizes(sizes, num) && i < |sizes| && j < |sizes| && Element(sizes, num, i, p) && Element(sizes, num, j, q)
    ensures 0 <= p && p + sizes[i] <= Base(sizes, num, |sizes|)
    ensures (i, p) != (j, q) ==> p + sizes[i] <= q || q + sizes[j] <= p
  {
    CarvedPlaces(Base(sizes, num, i), sizes[i], num[i]);
    CarvedPlaces(Base(sizes, num, j), sizes[j], num[j]);
    BaseGrows(sizes, num, i + 1, |sizes|);
    if i < j { BaseGrows(sizes, num, i + 1, j); }
    if j < i { BaseGrows(sizes, num, j + 1, i); }
  }

  /** Each element of pool i is either in its free list, once, or handed out. */
  ghost predicate PoolOk(g: seq<int>, head: int, sizes: seq<nat>, num: seq<nat>, i: nat, list: seq<int>, out: set<int>)
    requires i < |sizes| == |num|
  {
    && Linked(g, head, list) && Distinct(list)
    && (forall p :: Element(sizes, num, i, p) <==> p in list || p in out)
    && (forall p :: p in list ==> p !in out)
  }

  lemma Popped(g: seq<int>, head: int, sizes: seq<nat>, num: seq<nat>, i: nat, list: seq<int>, out: set<int>)
    requires i < |sizes| == |num| && PoolOk(g, head, sizes, num, i, list, out) && list != []
    ensures head == list[0] && 0 <= head < |g| && head !in out
    ensures PoolOk(g, g[head], sizes, num, i, list[1..], out + {head})
  {
    assert list == [head] + list[1..];
    assert forall q :: q in list <==> q == head || q in list[1..];
  }

  lemma Kept(g: seq<int>, p: int, x: int, head: int, sizes: seq<nat>, num: seq<nat>, i: nat, list: seq<int>,
             out: set<int>)
    requires i < |sizes| == |num| && PoolOk(g, head, sizes, num, i, list, out) && 0 <= p < |g| && p !in list
    ensures PoolOk(g[p := x], head, sizes, num, i, list, out)
  {
    LinkedFrame(g, g[p := x], head, list);
  }

  lemma Pushed(g: seq<int>, p: int, head: int, sizes: seq<nat>, num: seq<nat>, i: nat, list: seq<int>, out: set<int>)
    requires i < |sizes| == |num| && PoolOk(g, head, sizes, num, i, list, out) && 0 <= p < |g| && p in out
    ensures PoolOk(g[p := head], p, sizes, num, i, [p] + list, out - {p})
  {
    LinkedFrame(g, g[p := head], head, list);
    assert ([p] + list)[1..] == list;
    assert forall q :: q in [p] + list <==> q == p || q in list;
  }

  /** Element n of a pool is put on top of the elements before it. */
  lemma CarveOne(g: seq<int>, head: int, base: nat, size: nat, n: nat)
    requires size > 0 && Linked(g, head, Carved(base, size, n)) && base + Times(n, size) < |g|
    requires Closed(g) && Pointer(g, head)
    ensures var (p, h) := (base + Times(n, size), g[base + Times(n, size) := head]);
            Linked(h, p, Carved(base, size, n + 1)) && Closed(h) && Pointer(h, p)
  {
    var p := base + Times(n, size);
    CarvedPlaces(base, size, n);
    LinkedFrame(g, g[p := head], head, Carved(base, size, n));
    assert Carved(base, size, n + 1)[1..] == Carved(base, size, n);
  }

  lemma CarvedFits(sizes: seq<nat>, num: seq<nat>, i: nat, j: nat)
    requires Sizes(sizes, num) && i < |sizes| && j < num[i]
    ensures Base(sizes, num, i) + Times(j + 1, sizes[i]) <= Base(sizes, num, |sizes|)
    ensures Times(j + 1, sizes[i]) == Times(j, sizes[i]) + sizes[i] > Times(j, sizes[i])
  {
    TimesGrows(j + 1, num[i], sizes[i]);
    BaseGrows(sizes, num, i + 1, |sizes|);
  }

  lemma CarvedOk(g: seq<int>, head: int, sizes: seq<nat>, num: seq<nat>, i: nat)
    requires Sizes(sizes, num) && i < |sizes| && Linked(g, head, Carved(Base(sizes, num, i), sizes[i], num[i]))
    ensures PoolOk(g, head, sizes, num, i, Carved(Base(sizes, num, i), sizes[i], num[i]), {})
  {
    CarvedPlaces(Base(sizes, num, i), sizes[i], num[i]);
  }

  /** What was carved from earlier pools is not touched by writes at or behind pool i. */
  lemma CarvedKept(g: seq<int>, h: seq<int>, head: int, sizes: seq<nat>, num: seq<nat>, k: nat, i: nat)
    requires Sizes(sizes, num) && k < i <= |sizes| && |g| == |h|
    requires Linked(g, head, Carved(Base(sizes, num, k), sizes[k], num[k]))
    requires forall a :: 0 <= a < Base(sizes, num, i) && a < |g| ==> h[a] == g[a]
    ensures Linked(h, head, Carved(Base(sizes, num, k), sizes[k], num[k]))
  {
    BaseGrows(sizes, num, k + 1, i);
    CarvedPlaces(Base(sizes, num, k), sizes[k], num[k]);
    LinkedFrame(g, h, head, Carved(Base(sizes, num, k), sizes[k], num[k]));
  }

  /** The free lists of the first i pools are complete. */
  ghost predicate CarvedUpTo(g: seq<int>, heads: seq<int>, sizes: seq<nat>, num: seq<nat>, i: nat)
    requires |heads| == |sizes| == |num|
  {
    forall k :: 0 <= k < i <= |sizes| ==> Linked(g, heads[k], Carved(Base(sizes, num, k), sizes[k], num[k]))
  }

  lemma OneMoreCarved(g: seq<int>, h: seq<int>, heads: seq<int>, head: int, sizes: seq<nat>, num: seq<nat>, i: nat)
    requires Sizes(sizes, num) && i < |sizes| == |heads| && |g| == |h| && CarvedUpTo(g, heads, sizes, num, i)
    requires forall a :: 0 <= a < Base(sizes, num, i) && a < |g| ==> h[a] == g[a]
    requires Linked(h, head, Carved(Base(sizes, num, i), sizes[i], num[i]))
    ensures CarvedUpTo(h, heads[i := head], sizes, num, i + 1)
  {
    forall k | 0 <= k < i ensures Linked(h, heads[k], Carved(Base(sizes, num, k), sizes[k], num[k])) {
      CarvedKept(g, h, heads[k], sizes, num, k, i);
    }
  }

  function AllCarved(sizes: seq<nat>, num: seq<nat>, n: nat): (lists: seq<seq<int>>)
    requires n <= |sizes| == |num|
    ensures |lists| == n && forall k :: 0 <= k < n ==> lists[k] == Carved(Base(sizes, num, k), sizes[k], num[k])
  {
    if n == 0 then [] else AllCarved(sizes, num, n - 1) + [Carved(Base(sizes, num, n - 1), sizes[n - 1], num[n - 1])]
  }

  class Pools {
    const sizes: seq<nat>        // memp_sizes
    const num: seq<nat>          // memp_num
    const next: array<int>       // memp->next of the element at an address
    const tab: array<int>        // memp_tab
    ghost var free: seq<seq<int>>
    ghost var live: seq<set<int>>

    ghost predicate Valid()
      reads this, next, tab
    {
      && Sizes(sizes, num) && |free| == |live| == tab.Length == |sizes| && next.Length == Base(sizes, num, |sizes|)
      && next != tab && Closed(next[..])
      && (forall i :: 0 <= i < |sizes| ==> PoolOk(next[..], tab[i], sizes, num, i, free[i], live[i]))
    }

    /** The inner loop of memp_init: put num[i] elements from `start` on into list i. */
    method Carve(i: nat, start: nat) returns (memp: nat)
      requires Sizes(sizes, num) && i < |sizes| == tab.Length && next != tab && start == Base(sizes, num, i)
      requires next.Length == Base(sizes, num, |sizes|) && Closed(next[..])
      modifies tab, next
      ensures memp == Base(sizes, num, i + 1) && Closed(next[..])
      ensures Linked(next[..], tab[i], Carved(start, sizes[i], num[i]))
      ensures forall a :: 0 <= a < start && a < next.Length ==> next[a] == old(next[a])
      ensures tab[..] == old(tab[..])[i := tab[i]]
    {
      memp := start;
      tab[i] := NULL;
      for j := 0 to num[i]
        invariant memp == start + Times(j, sizes[i]) && Closed(next[..])
        invariant Linked(next[..], tab[i], Carved(start, sizes[i], j)) && Pointer(next[..], tab[i])
        invariant forall a :: 0 <= a < start && a < next.Length ==> next[a] == old(next[a])
        invariant tab[..] == old(tab[..])[i := tab[i]]
      {
        ghost var g := next[..];
        CarvedFits(sizes, num, i, j);
        CarveOne(g, tab[i], start, sizes[i], j);
        next[memp] := tab[i];
        assert next[..] == g[memp := tab[i]];
        tab[i] := memp;
        memp := memp + sizes[i];
      }
    }

    /** The outer loop of memp_init. */
    method CarveAll()
      requires Sizes(sizes, num) && tab.Length == |sizes| && next.Length == Base(sizes, num, |sizes|)
      requires next != tab && Closed(next[..])
      modifies tab, next
      ensures Closed(next[..]) && CarvedUpTo(next[..], tab[..], sizes, num, |sizes|)
    {
      var memp := 0;
      for i := 0 to |sizes|
        invariant memp == Base(sizes, num, i) && Closed(next[..])
        invariant CarvedUpTo(next[..], tab[..], sizes, num, i)
      {
        ghost var (g, heads) := (next[..], tab[..]);
        memp := Carve(i, memp);
        assert tab[..] == heads[i := tab[i]];
        OneMoreCarved(g, next[..], heads, tab[i], sizes, num, i);
      }
    }

    /** memp_init: every element is in its pool's free list. */
    method Init()
      requires Sizes(sizes, num) && tab.Length == |sizes| && next.Length == Base(sizes, num, |sizes|)
      requires next != tab && Closed(next[..])
      modifies this, tab, next
      ensures Valid() && free == AllCarved(sizes, num, |sizes|) && live == seq(|sizes|, _ => {})
    {
      CarveAll();
      free := AllCarved(sizes, num, |sizes|);
      live := seq(|sizes|, _ => {});
      assert CarvedUpTo(next[..], tab[..], sizes, num, |sizes|);
      forall i | 0 <= i < |sizes| ensures PoolOk(next[..], tab[i], sizes, num, i, free[i], live[i]) {
        CarvedOk(next[..], tab[i], sizes, num, i);
      }
    }

    constructor (sizes: seq<nat>, num: seq<nat>)
      requires Sizes(sizes, num)
      ensures Valid() && fresh(next) && fresh(tab) && this.sizes == sizes && this.num == num
      ensures free == AllCarved(sizes, num, |sizes|) && live == seq(|sizes|, _ => {})
    {
      this.sizes, this.num := sizes, num;
      next := new int[Base(sizes, num, |sizes|)](_ => NULL);
      tab := new int[|sizes|](_ => NULL);
      new;
      Init();
    }

    /** memp_malloc: the first element of the pool's free list, if there is one. */
    method Malloc(kind: nat) returns (p: int)
      requires Valid()
      modifies this, tab
      ensures Valid() && next[..] == old(next[..])
      ensures if kind >= |sizes| || old(free[kind]) == [] then p == NULL && free == old(free) && live == old(live)
              else
                && p == old(free[kind][0]) && p !in old(live[kind])
                && free == old(free)[kind := old(free[kind])[1..]]
                && live == old(live)[kind := old(live[kind]) + {p}]
    {
      if kind >= |sizes| {
        return NULL;
      }
      p := tab[kind];
      assert PoolOk(next[..], p, sizes, num, kind, free[kind], live[kind]);
      if p != NULL {
        Popped(next[..], p, sizes, num, kind, free[kind], live[kind]);
        tab[kind] := next[p];
        free := free[kind := free[kind][1..]];
        live := live[kind := live[kind] + {p}];
      }
    }

    lemma OnlyLive(kind: nat, p: int, i: nat)
      requires Valid() && kind < |sizes| && i < |sizes| && p in live[kind]
      ensures p !in free[i] && 0 <= p < next.Length
    {
      assert PoolOk(next[..], tab[kind], sizes, num, kind, free[kind], live[kind]);
      assert PoolOk(next[..], tab[i], sizes, num, i, free[i], live[i]);
      assert Element(sizes, num, kind, p);
      ElementsDisjoint(sizes, num, kind, kind, p, p);
      if p in free[i] {
        assert Element(sizes, num, i, p);
        ElementsDisjoint(sizes, num, kind, i, p, p);
      }
    }

    /** memp_free of an element handed out, or of NULL. */
    method Free(kind: nat, p: int)
      requires Valid() && (p != NULL ==> kind < |sizes| && p in live[kind])
      modifies this, tab, next
      ensures Valid()
      ensures if p == NULL then free == old(free) && live == old(live)
              else
                && free == old(free)[kind := [p] + old(free[kind])]
                && live == old(live)[kind := old(live[kind]) - {p}]
    {
      if p != NULL {
        ghost var g := next[..];
        OnlyLive(kind, p, kind);
        assert PoolOk(g, tab[kind], sizes, num, kind, free[kind], live[kind]);
        Pushed(g, p, tab[kind], sizes, num, kind, free[kind], live[kind]);
        forall i | 0 <= i < |sizes| && i != kind
          ensures PoolOk(g[p := tab[kind]], tab[i], sizes, num, i, free[i], live[i])
        {
          OnlyLive(kind, p, i);
          Kept(g, p, tab[kind], tab[i], sizes, num, i, free[i], live[i]);
        }
        next[p] := tab[kind];
        assert next[..] == g[p := tab[kind]];
        tab[kind] := p;
        free := free[kind := [p] + free[kind]];
        live := live[kind := live[kind] - {p}];
      }
    }

    /** memp_sanity holds in every state of the allocator. */
    method Check() returns (sane: int)
      requires Valid()
      ensures sane == 1
    {
      forall i | 0 <= i < tab.Length ensures Pointer(next[..], tab[i]) && ReachesNull(next[..], tab[i]) {
        assert PoolOk(next[..], tab[i], sizes, num, i, free[i], live[i]);
        LinkedReachesNull(next[..], tab[i], free[i]);
      }
      sane := Sanity(next, tab);
    }
  }
}
