/** Finite pointer graphs and the meeting of a slow and a fast walker, for memp_sanity. */
module PoolCycle {
  import opened Counting

  const NULL := -1

  /** Each cell points to another cell or to NULL. */
  type Graph = seq<int>

  predicate Closed(g: Graph) { forall p :: 0 <= p < |g| ==> Pointer(g, g[p]) }

  predicate Pointer(g: Graph, p: int) { p == NULL || 0 <= p < |g| }

  /** The pointer reached by following `next` k times; NULL stays NULL. */
  function Walk(g: Graph, p: int, k: nat): (q: int)
    requires Closed(g) && Pointer(g, p)
    ensures Pointer(g, q)
    decreases k
  {
    if k == 0 then p
    else if p == NULL then NULL
    else Walk(g, g[p], k - 1)
  }

  ghost predicate ReachesNull(g: Graph, p: int)
    requires Closed(g) && Pointer(g, p)
  {
    exists k: nat :: Walk(g, p, k) == NULL
  }

  lemma {:induction false} WalkAdd(g: Graph, p: int, a: nat, b: nat)
    requires Closed(g) && Pointer(g, p)
    ensures Walk(g, p, a + b) == Walk(g, Walk(g, p, a), b)
    decreases a
  {
    if a > 0 {
      if p == NULL { NullStays(g, a + b); NullStays(g, b); } else { WalkAdd(g, g[p], a - 1, b); }
    }
  }

  lemma {:induction false} NullStays(g: Graph, k: nat)
    requires Closed(g)
    ensures Walk(g, NULL, k) == NULL
  {
  }

  /** A walk that comes back to a cell never ends. */
  lemma {:induction false} RevisitIsForever(g: Graph, p: int, a: nat, d: nat, m: nat)
    requires Closed(g) && Pointer(g, p) && d > 0
    requires Walk(g, p, a) == Walk(g, p, a + d) != NULL
    ensures Walk(g, p, m) != NULL
    decreases m
  {
    if m < a + d {
      WalkAdd(g, p, m, a + d - m);
      NullStays(g, a + d - m);
    } else {
      WalkAdd(g, p, a + d, m - a - d);
      WalkAdd(g, p, a, m - a - d);
      RevisitIsForever(g, p, a, d, m - d);
    }
  }

  lemma {:induction false} LapsReturn(g: Graph, p: int, a: nat, d: nat, x: nat, j: nat)
    requires Closed(g) && Pointer(g, p) && Walk(g, p, a) == Walk(g, p, a + d) && x >= a
    ensures Walk(g, p, x + Times(j, d)) == Walk(g, p, x)
    decreases j
  {
    if j > 0 {
      LapsReturn(g, p, a, d, x + d, j - 1);
      WalkAdd(g, p, a, x - a);
      WalkAdd(g, p, a + d, x - a);
    }
  }

  lemma {:induction false} Pigeonhole(s: seq<int>, n: nat) returns (i: nat, j: nat)
    requires |s| > n > 0 && forall k :: 0 <= k < |s| ==> 0 <= s[k] < n
    ensures i < j < |s| && s[i] == s[j]
    decreases n
  {
    if n == 1 {
      i, j := 0, 1;
    } else if k :| 0 <= k < |s| && s[k] == n - 1 {
      if m :| 0 <= m < |s| && m != k && s[m] == n - 1 {
        i, j := if k < m then k else m, if k < m then m else k;
      } else {
        i, j := Pigeonhole(s[..k] + s[k + 1..], n - 1);
        i, j := if i < k then i else i + 1, if j < k then j else j + 1;
      }
    } else {
      i, j := Pigeonhole(s, n - 1);
    }
  }

  /** From anywhere, the slow and the fast walker meet, or both are at the end. */
  lemma Meeting(g: Graph, p: int) returns (k: nat)
    requires Closed(g) && Pointer(g, p)
    ensures Walk(g, p, k) == Walk(g, p, 2 * k + 1)
  {
    if m: nat :| m <= |g| && Walk(g, p, m) == NULL {
      k := m;
      WalkAdd(g, p, m, m + 1);
      NullStays(g, m + 1);
    } else {
      var visited := seq(|g| + 1, i requires 0 <= i <= |g| => Walk(g, p, i));
      forall i | 0 <= i < |visited| ensures 0 <= visited[i] < |g| { assert Pointer(g, Walk(g, p, i)); }
      assert Walk(g, p, 0) == p;
      var a, b := Pigeonhole(visited, |g|);
      var d := b - a;
      TimesAtLeast(a + 1, d);
      k := Times(a + 1, d) - 1;
      LapsReturn(g, p, a, d, k, a + 1);
    }
  }

  /** If the walkers meet at a cell, the list is circular; if the fast one is at the end, it is not. */
  lemma MeetingDecides(g: Graph, p: int, k: nat)
    requires Closed(g) && Pointer(g, p)
    ensures Walk(g, p, k) == Walk(g, p, 2 * k + 1) != NULL ==> !ReachesNull(g, p)
    ensures Walk(g, p, k) == NULL || Walk(g, p, 2 * k + 1) == NULL ==> ReachesNull(g, p)
  {
    if Walk(g, p, k) == Walk(g, p, 2 * k + 1) != NULL {
      forall m: nat ensures Walk(g, p, m) != NULL { RevisitIsForever(g, p, k, k + 1, m); }
    }
  }

  lemma WalkTwo(g: Graph, p: int, k: nat)
    requires Closed(g) && Pointer(g, p)
    ensures Walk(g, p, k + 1) == Walk(g, Walk(g, p, k), 1) && Walk(g, p, k + 2) == Walk(g, Walk(g, p, k), 2)
  {
    WalkAdd(g, p, k, 1);
    WalkAdd(g, p, k, 2);
  }

  /** One list of memp_sanity: the fast walker starts one step ahead. */
  method IsFinite(next: array<int>, head: int) returns (ok: bool)
    requires Closed(next[..]) && Pointer(next[..], head)
    ensures ok <==> ReachesNull(next[..], head)
  {
    ghost var g := next[..];
    if head == NULL {
      assert Walk(g, head, 0) == NULL;
      return true;
    }
    var t, h := head, next[head];
    ghost var k: nat := 0;
    ghost var last := Meeting(g, head);
    assert Walk(g, head, 1) == h;
    while t != NULL && h != NULL
      invariant k <= last && t == Walk(g, head, k) && h == Walk(g, head, 2 * k + 1)
      decreases last - k
    {
      MeetingDecides(g, head, k);
      if t == h {
        return false;
      }
      WalkTwo(g, head, k);
      WalkTwo(g, head, 2 * k + 1);
      t := next[t];
      h := if next[h] != NULL && next[next[h]] != NULL then next[next[h]] else NULL;
      k := k + 1;
    }
    MeetingDecides(g, head, k);
    return true;
  }

  /** memp_sanity: 1 exactly when every pool's free list comes to an end. */
  method Sanity(next: array<int>, tab: array<int>) returns (sane: int)
    requires Closed(next[..]) && forall i :: 0 <= i < tab.Length ==> Pointer(next[..], tab[i])
    ensures sane == if forall i :: 0 <= i < tab.Length ==> ReachesNull(next[..], tab[i]) then 1 else 0
  {
    var i := 0;
    while i < tab.Length
      invariant i <= tab.Length && forall j :: 0 <= j < i ==> ReachesNull(next[..], tab[j])
    {
      var ok := IsFinite(next, tab[i]);
      if !ok {
        return 0;
      }
      i := i + 1;
    }
    return 1;
  }
}
