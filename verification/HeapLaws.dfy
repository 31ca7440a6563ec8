/** Laws of the abstract heap: every operation keeps the chain well formed, and the chain is
    determined by the extents in use, so operations can be undone in any order. */
module HeapLaws {
  import opened HeapLayout

  // ----- The folds split over concatenation -----------------------------------------------

  lemma {:induction false} SplitTiles(a: seq<Block>, b: seq<Block>, size: nat)
    ensures Tiles(a + b, size) <==> Tiles(a, Next(b, size)) && Tiles(b, size)
  {
    if a == [] {
      assert a + b == b;
    } else {
      assert (a + b)[1..] == a[1..] + b;
      SplitTiles(a[1..], b, size);
    }
  }

  lemma {:induction false} SplitNoHoles(a: seq<Block>, b: seq<Block>)
    ensures NoHoles(a + b) <==>
            NoHoles(a) && NoHoles(b) && (a != [] && b != [] ==> a[|a| - 1].used || b[0].used)
  {
    if a == [] {
      assert a + b == b;
    } else {
      assert (a + b)[1..] == a[1..] + b;
      SplitNoHoles(a[1..], b);
    }
  }

  lemma {:induction false} SplitExtents(a: seq<Block>, b: seq<Block>, size: nat)
    ensures UsedExtents(a + b, size) == UsedExtents(a, Next(b, size)) + UsedExtents(b, size)
  {
    if a == [] {
      assert a + b == b;
    } else {
      assert (a + b)[1..] == a[1..] + b;
      SplitExtents(a[1..], b, size);
    }
  }

  lemma {:induction false} SplitBytes(a: seq<Block>, b: seq<Block>, size: nat)
    ensures UsedBytes(a + b, size) == UsedBytes(a, Next(b, size)) + UsedBytes(b, size)
  {
    if a == [] {
      assert a + b == b;
    } else {
      assert (a + b)[1..] == a[1..] + b;
      SplitBytes(a[1..], b, size);
    }
  }

  lemma {:induction false} SplitLowest(a: seq<Block>, b: seq<Block>, size: nat)
    ensures LowestFree(a + b, size) == LowestFree(a, LowestFree(b, size))
  {
    if a == [] {
      assert a + b == b;
    } else {
      assert (a + b)[1..] == a[1..] + b;
      SplitLowest(a[1..], b, size);
    }
  }

  /** All of the above for a chain written as three pieces. */
  lemma Split3(a: seq<Block>, m: seq<Block>, b: seq<Block>, size: nat)
    ensures var n := Next(b, size); var k := Next(m, n);
            && Next(m + b, size) == k
            && (Tiles(a + m + b, size) <==> Tiles(a, k) && Tiles(m, n) && Tiles(b, size))
            && UsedExtents(a + m + b, size) ==
               UsedExtents(a, k) + UsedExtents(m, n) + UsedExtents(b, size)
            && UsedBytes(a + m + b, size) == UsedBytes(a, k) + UsedBytes(m, n) + UsedBytes(b, size)
            && LowestFree(a + m + b, size) == LowestFree(a, LowestFree(m, LowestFree(b, size)))
  {
    assert a + m + b == a + (m + b);
    SplitTiles(a, m + b, size); SplitTiles(m, b, size);
    SplitExtents(a, m + b, size); SplitExtents(m, b, size);
    SplitBytes(a, m + b, size); SplitBytes(m, b, size);
    SplitLowest(a, m + b, size); SplitLowest(m, b, size);
  }

  lemma SplitNoHoles3(a: seq<Block>, m: seq<Block>, b: seq<Block>)
    requires m != []
    ensures NoHoles(a + m + b) <==>
            && NoHoles(a) && NoHoles(m) && NoHoles(b)
            && (a != [] ==> a[|a| - 1].used || m[0].used)
            && (b != [] ==> m[|m| - 1].used || b[0].used)
  {
    assert a + m + b == a + (m + b);
    SplitNoHoles(a, m + b); SplitNoHoles(m, b);
  }

  // ----- Where extents can lie ------------------------------------------------------------

  /** Every extent in use lies between the first header and the end, with room for a block. */
  lemma {:induction false} ExtentsInside(bs: seq<Block>, size: nat)
    requires Tiles(bs, size)
    ensures bs != [] ==> bs[0].start + HEADER + MIN_SIZE <= Next(bs[1..], size) <= size
    ensures forall x :: x in UsedExtents(bs, size) ==>
              bs != [] && bs[0].start <= x.0 && x.0 + HEADER + MIN_SIZE <= x.1 <= size
              && x.0 % ALIGNMENT == 0
  {
    if bs != [] { ExtentsInside(bs[1..], size); }
  }

  lemma {:induction false} StartsAscend(bs: seq<Block>, size: nat, i: nat, j: nat)
    requires Tiles(bs, size) && i < j < |bs|
    ensures bs[i].start + HEADER + MIN_SIZE <= End(bs, size, i) <= bs[j].start
  {
    if i > 0 {
      assert bs[i + 1..] == bs[1..][i - 1 + 1..];
      StartsAscend(bs[1..], size, i - 1, j - 1);
    } else if j > 1 {
      assert End(bs, size, 0) == bs[1].start == bs[1..][0].start;
      StartsAscend(bs[1..], size, 0, j - 1);
    }
  }

  lemma {:induction false} TilesSuffix(bs: seq<Block>, size: nat, i: nat)
    requires Tiles(bs, size) && i <= |bs|
    ensures Tiles(bs[i..], size)
  {
    if i > 0 { assert bs[i..] == bs[1..][i - 1..]; TilesSuffix(bs[1..], size, i - 1); }
  }

  /** What membership in UsedExtents means. */
  lemma {:induction false} ExtentOfUsedBlock(bs: seq<Block>, size: nat, i: nat)
    requires i < |bs| && bs[i].used
    ensures (bs[i].start, End(bs, size, i)) in UsedExtents(bs, size)
  {
    if i > 0 {
      assert bs[i + 1..] == bs[1..][i - 1 + 1..];
      ExtentOfUsedBlock(bs[1..], size, i - 1);
    }
  }

  lemma {:induction false} BlockOfExtent(bs: seq<Block>, size: nat, x: Extent) returns (i: nat)
    requires x in UsedExtents(bs, size)
    ensures i < |bs| && bs[i].used && x == (bs[i].start, End(bs, size, i))
  {
    if bs[0].used && x == (bs[0].start, Next(bs[1..], size)) {
      i := 0;
    } else {
      var k := BlockOfExtent(bs[1..], size, x);
      i := k + 1;
      assert bs[i + 1..] == bs[1..][k + 1..];
    }
  }

  /** Payloads of live blocks are pairwise disjoint, aligned and inside the heap. */
  lemma LivePayloadsDisjoint(bs: seq<Block>, size: nat, x: Extent, y: Extent)
    requires WellFormed(bs, size) && x in UsedExtents(bs, size) && y in UsedExtents(bs, size) && x != y
    ensures x.1 <= y.0 || y.1 <= x.0
    ensures (x.0 + HEADER) % ALIGNMENT == 0 && x.0 + HEADER + MIN_SIZE <= x.1 <= size
  {
    var i := BlockOfExtent(bs, size, x);
    var j := BlockOfExtent(bs, size, y);
    ExtentsInside(bs, size);
    if i < j { StartsAscend(bs, size, i, j); } else if j < i { StartsAscend(bs, size, j, i); }
  }

  // ----- The operations keep the chain well formed ----------------------------------------

  /** The extent mem_malloc hands out from block i. */
  function Granted(bs: seq<Block>, size: nat, i: nat, need: nat): Extent
    requires i < |bs|
  {
    (bs[i].start,
     if Room(bs, size, i) >= need + HEADER + MIN_SIZE then bs[i].start + HEADER + need
     else End(bs, size, i))
  }

  /** Block i contributes exactly its own extent. */
  lemma SplitAt(bs: seq<Block>, size: nat, i: nat)
    requires Tiles(bs, size) && i < |bs|
    ensures var (a, b, e) := (bs[..i], bs[i + 1..], End(bs, size, i));
            && bs == a + [bs[i]] + b
            && Tiles(a, bs[i].start) && Tiles(b, size)
            && bs[i].start % ALIGNMENT == 0 && bs[i].start + HEADER + MIN_SIZE <= e <= size
            && e % ALIGNMENT == 0
            && UsedExtents(bs, size) == UsedExtents(a, bs[i].start)
                 + (if bs[i].used then {(bs[i].start, e)} else {}) + UsedExtents(b, size)
            && UsedBytes(bs, size) == UsedBytes(a, bs[i].start)
                 + (if bs[i].used then e - bs[i].start else 0) + UsedBytes(b, size)
            && LowestFree(bs, size) == LowestFree(a,
                 if bs[i].used then LowestFree(b, size) else bs[i].start)
            && (forall x :: x in UsedExtents(a, bs[i].start) ==> x.1 <= bs[i].start)
            && (forall x :: x in UsedExtents(b, size) ==> e <= x.0)
            && (bs[i].start, e) !in UsedExtents(a, bs[i].start) + UsedExtents(b, size)
  {
    var a, b := bs[..i], bs[i + 1..];
    assert bs == a + [bs[i]] + b;
    Split3(a, [bs[i]], b, size);
    ExtentsInside(a, bs[i].start);
    ExtentsInside(b, size);
    ExtentsInside([bs[i]] + b, size);
    SplitTiles([bs[i]], b, size);
  }

  lemma WholePiece(u: Block, n: nat)
    requires u.used
    ensures UsedExtents([u], n) == {(u.start, n)} && UsedBytes([u], n) == n - u.start
    ensures u.start % ALIGNMENT == 0 && n % ALIGNMENT == 0 && n >= u.start + HEADER + MIN_SIZE ==> Tiles([u], n)
  {
    assert [u][1..] == [];
  }

  lemma FreePiece(f: Block, n: nat)
    requires !f.used
    ensures UsedExtents([f], n) == {} && UsedBytes([f], n) == 0
    ensures f.start % ALIGNMENT == 0 && n % ALIGNMENT == 0 && n >= f.start + HEADER + MIN_SIZE ==> Tiles([f], n)
  {
    assert [f][1..] == [];
  }

  lemma CutPair(u: Block, c: Block, n: nat)
    requires u.used && !c.used
    ensures UsedExtents([u, c], n) == {(u.start, c.start)}
    ensures UsedBytes([u, c], n) == c.start - u.start
    ensures u.start % ALIGNMENT == 0 && c.start >= u.start + HEADER + MIN_SIZE
            ==> (Tiles([u, c], n) <==> Tiles([c], n))
  {
    FreePiece(c, n);
    assert [u, c][1..] == [c];
  }

  /** Replacing one piece of a chain by another that starts at the same offset. */
  lemma ReplacePiece(a: seq<Block>, f: seq<Block>, m: seq<Block>, b: seq<Block>, size: nat, g: Extent)
    requires Tiles(a + f + b, size) && f != [] && m != [] && f[0].start == m[0].start
    requires var n := Next(b, size);
             && Tiles(m, n) && UsedExtents(f, n) == {} && UsedBytes(f, n) == 0
             && UsedExtents(m, n) == {g} && UsedBytes(m, n) == g.1 - g.0
    ensures Tiles(a + m + b, size)
    ensures UsedExtents(a + m + b, size) == UsedExtents(a + f + b, size) + {g}
    ensures UsedBytes(a + m + b, size) == UsedBytes(a + f + b, size) + g.1 - g.0
  {
    Split3(a, f, b, size);
    Split3(a, m, b, size);
  }

  /** What mem_malloc makes of a block: one used block, or a used and a free one. */
  function Marked(bs: seq<Block>, size: nat, i: nat, need: nat): seq<Block>
    requires i < |bs|
  {
    var s := bs[i].start;
    if Room(bs, size, i) >= need + HEADER + MIN_SIZE then [Block(s, true), Block(s + HEADER + need, false)]
    else [Block(s, true)]
  }

  lemma CutPiece(s: nat, need: nat, n: nat)
    requires s % ALIGNMENT == 0 && n % ALIGNMENT == 0 && need >= MIN_SIZE && need % ALIGNMENT == 0
    requires n >= s + HEADER + need + HEADER + MIN_SIZE
    ensures var (m, c) := ([Block(s, true), Block(s + HEADER + need, false)], s + HEADER + need);
            Tiles(m, n) && UsedExtents(m, n) == {(s, c)} && UsedBytes(m, n) == c - s
  {
    var c := Block(s + HEADER + need, false);
    FreePiece(c, n);
    CutPair(Block(s, true), c, n);
  }

  lemma MarkedPiece(bs: seq<Block>, size: nat, i: nat, need: nat)
    requires Tiles(bs, size) && i < |bs| && Fits(bs, size, i, need)
    requires need >= MIN_SIZE && need % ALIGNMENT == 0
    ensures var (n, g, m) := (Next(bs[i + 1..], size), Granted(bs, size, i, need), Marked(bs, size, i, need));
            && Tiles(m, n) && UsedExtents(m, n) == {g} && UsedBytes(m, n) == g.1 - g.0
            && UsedExtents([bs[i]], n) == {} && UsedBytes([bs[i]], n) == 0
  {
    var (s, n) := (bs[i].start, Next(bs[i + 1..], size));
    assert s % ALIGNMENT == 0 && n == End(bs, size, i) && s + HEADER + MIN_SIZE <= n && n % ALIGNMENT == 0 by {
      SplitAt(bs, size, i);
    }
    FreePiece(bs[i], n);
    if Room(bs, size, i) >= need + HEADER + MIN_SIZE {
      CutPiece(s, need, n);
    } else {
      WholePiece(Block(s, true), n);
    }
  }

  lemma MarkTiles(bs: seq<Block>, size: nat, i: nat, need: nat)
    requires Tiles(bs, size) && i < |bs| && Fits(bs, size, i, need)
    requires need >= MIN_SIZE && need % ALIGNMENT == 0
    ensures var g := Granted(bs, size, i, need);
            var m := Mark(bs, size, i, need);
            && Tiles(m, size)
            && UsedExtents(m, size) == UsedExtents(bs, size) + {g}
            && UsedBytes(m, size) == UsedBytes(bs, size) + g.1 - g.0
  {
    var (a, b, m) := (bs[..i], bs[i + 1..], Marked(bs, size, i, need));
    MarkedPiece(bs, size, i, need);
    assert bs == a + [bs[i]] + b && Mark(bs, size, i, need) == a + m + b;
    ReplacePiece(a, [bs[i]], m, b, size, Granted(bs, size, i, need));
  }

  lemma {:induction false} StartAligned(bs: seq<Block>, size: nat, i: nat)
    requires Tiles(bs, size) && i < |bs|
    ensures bs[i].start % ALIGNMENT == 0
  {
    if i > 0 { StartAligned(bs[1..], size, i - 1); }
  }

  lemma MarkLaws(bs: seq<Block>, size: nat, i: nat, need: nat)
    requires WellFormed(bs, size) && i < |bs| && Fits(bs, size, i, need)
    requires need >= MIN_SIZE && need % ALIGNMENT == 0
    ensures WellFormed(Mark(bs, size, i, need), size)
    ensures var g := Granted(bs, size, i, need);
            && g !in UsedExtents(bs, size)
            && UsedExtents(Mark(bs, size, i, need), size) == UsedExtents(bs, size) + {g}
            && UsedBytes(Mark(bs, size, i, need), size) == UsedBytes(bs, size) + g.1 - g.0
            && need + HEADER <= g.1 - g.0 < need + HEADER + HEADER + MIN_SIZE
  {
    var a, b, s := bs[..i], bs[i + 1..], bs[i].start;
    MarkTiles(bs, size, i, need);
    assert bs == a + [bs[i]] + b;
    SplitNoHoles3(a, [bs[i]], b);
    if Room(bs, size, i) >= need + HEADER + MIN_SIZE {
      SplitNoHoles3(a, [Block(s, true), Block(s + HEADER + need, false)], b);
    } else {
      SplitNoHoles3(a, [Block(s, true)], b);
    }
    if Granted(bs, size, i, need) in UsedExtents(bs, size) {
      var k := BlockOfExtent(bs, size, Granted(bs, size, i, need));
      if k < i { StartsAscend(bs, size, k, i); } else if i < k { StartsAscend(bs, size, i, k); }
    }
  }

  function Join(bs: seq<Block>, i: nat): seq<Block>
    requires i + 1 < |bs|
  {
    bs[..i + 1] + bs[i + 2..]
  }

  /** Joining two free neighbours changes nothing but the number of headers. */
  lemma JoinLaws(bs: seq<Block>, size: nat, i: nat)
    requires Tiles(bs, size) && i + 1 < |bs| && !bs[i].used && !bs[i + 1].used
    ensures Tiles(Join(bs, i), size)
    ensures UsedExtents(Join(bs, i), size) == UsedExtents(bs, size)
    ensures UsedBytes(Join(bs, i), size) == UsedBytes(bs, size)
    ensures LowestFree(Join(bs, i), size) == LowestFree(bs, size)
  {
    var a, b := bs[..i], bs[i + 2..];
    assert bs == a + [bs[i], bs[i + 1]] + b;
    assert Join(bs, i) == a + [bs[i]] + b;
    Split3(a, [bs[i], bs[i + 1]], b, size);
    Split3(a, [bs[i]], b, size);
  }

  /** Clearing the used flag alone removes the block's extent. */
  lemma ClearLaws(bs: seq<Block>, size: nat, i: nat)
    requires Tiles(bs, size) && i < |bs| && bs[i].used
    ensures var f := bs[i := Block(bs[i].start, false)];
            var x: Extent := (bs[i].start, End(bs, size, i));
            && Tiles(f, size)
            && UsedExtents(f, size) == UsedExtents(bs, size) - {x}
            && UsedBytes(f, size) == UsedBytes(bs, size) - x.1 + x.0
  {
    var f := bs[i := Block(bs[i].start, false)];
    SplitAt(bs, size, i);
    assert f == bs[..i] + [f[i]] + bs[i + 1..];
    Split3(bs[..i], [f[i]], bs[i + 1..], size);
    Split3(bs[..i], [bs[i]], bs[i + 1..], size);
  }

  lemma ReleaseInSteps(bs: seq<Block>, i: nat)
    requires i < |bs|
    ensures var f := bs[i := Block(bs[i].start, false)];
            var g := if FreeAhead(bs, i) then Join(f, i) else f;
            Release(bs, i) == if FreeBehind(bs, i) then Join(g, i - 1) else g
  {
  }

  lemma ReleaseTiles(bs: seq<Block>, size: nat, i: nat)
    requires Tiles(bs, size) && i < |bs| && bs[i].used
    ensures var x: Extent := (bs[i].start, End(bs, size, i));
            && Tiles(Release(bs, i), size)
            && UsedExtents(Release(bs, i), size) == UsedExtents(bs, size) - {x}
            && UsedBytes(Release(bs, i), size) == UsedBytes(bs, size) - x.1 + x.0
  {
    var f := bs[i := Block(bs[i].start, false)];
    ClearLaws(bs, size, i);
    ReleaseInSteps(bs, i);
    if FreeAhead(bs, i) { JoinLaws(f, size, i); }
    if FreeBehind(bs, i) { JoinLaws(if FreeAhead(bs, i) then Join(f, i) else f, size, i - 1); }
  }

  lemma {:induction false} NoHolesAt(bs: seq<Block>, k: nat)
    requires NoHoles(bs)
    ensures k + 1 < |bs| ==> bs[k].used || bs[k + 1].used
  {
    if 0 < k && k + 1 < |bs| { NoHolesAt(bs[1..], k - 1); }
  }

  lemma {:induction false} NoHolesIfEverywhere(bs: seq<Block>)
    requires forall k :: 0 <= k < |bs| - 1 ==> bs[k].used || bs[k + 1].used
    ensures NoHoles(bs)
  {
    if |bs| >= 2 {
      var t := bs[1..];
      forall k | 0 <= k < |t| - 1 ensures t[k].used || t[k + 1].used {
        assert bs[k + 1].used || bs[k + 1 + 1].used;
      }
      NoHolesIfEverywhere(t);
    }
  }

  /** Where the blocks of a released chain come from. */
  lemma ReleaseAt(bs: seq<Block>, i: nat, k: nat)
    requires i < |bs| && k < |Release(bs, i)|
    ensures var (p, q, r) := (JoinFrom(bs, i), JoinTo(bs, i), Release(bs, i));
            && |r| == p + 1 + |bs| - q
            && r[k] == if k < p then bs[k] else if k == p then Block(bs[p].start, false) else bs[k - p - 1 + q]
  {
  }

  lemma ReleaseNoHolesAt(bs: seq<Block>, i: nat, k: nat)
    requires NoHoles(bs) && i < |bs| && bs[i].used && k + 1 < |Release(bs, i)|
    ensures Release(bs, i)[k].used || Release(bs, i)[k + 1].used
  {
    var (p, q) := (JoinFrom(bs, i), JoinTo(bs, i));
    ReleaseAt(bs, i, k);
    ReleaseAt(bs, i, k + 1);
    NoHolesAt(bs, if k < p then k else if k == p then q - 1 else k - p - 1 + q);
  }

  lemma ReleaseNoHoles(bs: seq<Block>, i: nat)
    requires NoHoles(bs) && i < |bs| && bs[i].used
    ensures NoHoles(Release(bs, i))
  {
    var r := Release(bs, i);
    forall k | 0 <= k < |r| - 1 ensures r[k].used || r[k + 1].used { ReleaseNoHolesAt(bs, i, k); }
    NoHolesIfEverywhere(r);
  }

  lemma ReleaseLaws(bs: seq<Block>, size: nat, i: nat)
    requires WellFormed(bs, size) && i < |bs| && bs[i].used
    ensures WellFormed(Release(bs, i), size)
    ensures var x: Extent := (bs[i].start, End(bs, size, i));
            && UsedExtents(Release(bs, i), size) == UsedExtents(bs, size) - {x}
            && UsedBytes(Release(bs, i), size) == UsedBytes(bs, size) - x.1 + x.0
  {
    ReleaseTiles(bs, size, i);
    ReleaseNoHoles(bs, i);
  }

  lemma ClearLowest(bs: seq<Block>, size: nat, i: nat)
    requires Tiles(bs, size) && i < |bs| && bs[i].used
    ensures LowestFree(bs[i := Block(bs[i].start, false)], size) ==
            if bs[i].start < LowestFree(bs, size) then bs[i].start else LowestFree(bs, size)
  {
    var f, a, b := bs[i := Block(bs[i].start, false)], bs[..i], bs[i + 1..];
    SplitAt(bs, size, i);
    assert f == a + [f[i]] + b;
    Split3(a, [f[i]], b, size);
    LowestInside(a, bs[i].start);
    LowestInside(b, size);
    LowestPicks(a, bs[i].start, LowestFree(b, size));
  }

  /** The update of `lfree` in mem_free and plug_holes. */
  lemma ReleaseLowest(bs: seq<Block>, size: nat, i: nat)
    requires Tiles(bs, size) && i < |bs| && bs[i].used
    ensures LowestFree(Release(bs, i), size) ==
            if bs[i].start < LowestFree(bs, size) then bs[i].start else LowestFree(bs, size)
  {
    var f := bs[i := Block(bs[i].start, false)];
    ClearLowest(bs, size, i);
    ReleaseInSteps(bs, i);
    ClearLaws(bs, size, i);
    if FreeAhead(bs, i) { JoinLaws(f, size, i); }
    if FreeBehind(bs, i) { JoinLaws(if FreeAhead(bs, i) then Join(f, i) else f, size, i - 1); }
  }

  /** LowestFree is a block of the chain, or the default when all are used. */
  lemma {:induction false} LowestInside(bs: seq<Block>, size: nat)
    requires Tiles(bs, size)
    ensures Next(bs, size) <= LowestFree(bs, size) <= size
  {
    if bs != [] { ExtentsInside(bs, size); LowestInside(bs[1..], size); }
  }

  lemma {:induction false} LowestPicks(bs: seq<Block>, size: nat, other: nat)
    requires Tiles(bs, size)
    ensures LowestFree(bs, other) == if LowestFree(bs, size) < size then LowestFree(bs, size) else other
  {
    if bs != [] { ExtentsInside(bs, size); LowestPicks(bs[1..], size, other); }
  }

  /** mem_malloc's update of `lfree`: if the block taken was the lowest, walk on from it. */
  lemma MarkLowest(bs: seq<Block>, size: nat, i: nat, need: nat)
    requires Tiles(bs, size) && i < |bs| && Fits(bs, size, i, need)
    ensures var m := Mark(bs, size, i, need);
            && m[..i] == bs[..i] && m[i] == Block(bs[i].start, true)
            && LowestFree(m, size) ==
               if LowestFree(bs, size) == bs[i].start then LowestFree(m[i..], size)
               else LowestFree(bs, size)
  {
    var m, a := Mark(bs, size, i, need), bs[..i];
    SplitAt(bs, size, i);
    assert m == a + m[i..];
    SplitLowest(a, m[i..], size);
    LowestInside(a, bs[i].start);
    LowestPicks(a, bs[i].start, LowestFree(m[i..], size));
  }

  lemma {:induction false} BlocksBelowLowestAreUsed(bs: seq<Block>, size: nat, k: nat)
    requires Tiles(bs, size) && k < |bs| && bs[k].start < LowestFree(bs, size)
    ensures bs[k].used
  {
    if k > 0 {
      StartsAscend(bs, size, 0, k);
      BlocksBelowLowestAreUsed(bs[1..], size, k - 1);
    }
  }

  /** The extent that remains after trimming block i to `need` bytes. */
  function Kept(bs: seq<Block>, size: nat, i: nat, need: nat): Extent
    requires i < |bs|
  {
    (bs[i].start,
     if FreeAhead(bs, i) || need + HEADER + MIN_SIZE <= Room(bs, size, i)
     then bs[i].start + HEADER + need else End(bs, size, i))
  }

  /** Replacing the tail `rest` behind a used block by a free header `c` and `b`. */
  lemma CutLaws(a: seq<Block>, u: Block, rest: seq<Block>, c: Block, b: seq<Block>, size: nat)
    requires Tiles(a + [u] + rest, size) && u.used
    requires !c.used && c.start % ALIGNMENT == 0 && u.start + HEADER + MIN_SIZE <= c.start
    requires if rest != [] && !rest[0].used then b == rest[1..] && c.start < rest[0].start
             else b == rest && c.start + HEADER + MIN_SIZE <= Next(rest, size)
    ensures var t := a + [u, c] + b;
            && Tiles(t, size)
            && UsedBytes(t, size) == UsedBytes(a + [u] + rest, size) - Next(rest, size) + c.start
            && UsedExtents(t, size) ==
               UsedExtents(a, u.start) + {(u.start, c.start)} + UsedExtents(rest, size)
  {
    Split3(a, [u], rest, size);
    assert [u][1..] == [] && [c][1..] == [];
    assert UsedExtents(rest, size) == UsedExtents(b, size) && UsedBytes(rest, size) == UsedBytes(b, size);
    assert Tiles(b, size) && Tiles([c], Next(b, size));
    CutPair(u, c, Next(b, size));
    Split3(a, [u, c], b, size);
  }

  lemma CutNoHoles(bs: seq<Block>, i: nat, start: nat, b: seq<Block>)
    requires NoHoles(bs) && i < |bs| && bs[i].used
    requires if FreeAhead(bs, i) then b == bs[i + 2..] else b == bs[i + 1..]
    ensures NoHoles(bs[..i] + [bs[i], Block(start, false)] + b)
  {
    var t := bs[..i] + [bs[i], Block(start, false)] + b;
    var d := |t| - |bs|;
    forall k | 0 <= k < |t| - 1 ensures t[k].used || t[k + 1].used {
      if k < i {
        NoHolesAt(bs, k);
      } else if k > i + 1 {
        assert t[k] == bs[k - d] && t[k + 1] == bs[k + 1 - d];
        NoHolesAt(bs, k - d);
      } else if k == i + 1 {
        assert t[k + 1] == bs[k + 1 - d];
        NoHolesAt(bs, k - d);
      }
    }
    NoHolesIfEverywhere(t);
  }

  /** The extent of block i is nobody else's. */
  lemma UseAt(bs: seq<Block>, size: nat, i: nat)
    requires Tiles(bs, size) && i < |bs| && bs[i].used
    ensures var (a, b, x: Extent) := (bs[..i], bs[i + 1..], (bs[i].start, End(bs, size, i)));
            UsedExtents(bs, size) - {x} == UsedExtents(a, x.0) + UsedExtents(b, size)
  {
    SplitAt(bs, size, i);
  }

  lemma TrimTiles(bs: seq<Block>, size: nat, i: nat, need: nat)
    requires Tiles(bs, size) && i < |bs| && bs[i].used && Trim(bs, size, i, need) != bs
    requires MIN_SIZE <= need < Room(bs, size, i) && need % ALIGNMENT == 0
    ensures var (x: Extent, y) := ((bs[i].start, End(bs, size, i)), Kept(bs, size, i, need));
            var t := Trim(bs, size, i, need);
            && Tiles(t, size)
            && UsedExtents(t, size) == UsedExtents(bs, size) - {x} + {y}
            && UsedBytes(t, size) == UsedBytes(bs, size) - x.1 + y.1
  {
    var a, u, rest := bs[..i], bs[i], bs[i + 1..];
    var b := if FreeAhead(bs, i) then bs[i + 2..] else rest;
    UseAt(bs, size, i);
    StartAligned(bs, size, i);
    assert bs == a + [u] + rest;
    assert FreeAhead(bs, i) ==> rest[1..] == b;
    CutLaws(a, u, rest, Block(u.start + HEADER + need, false), b, size);
  }

  lemma TrimLaws(bs: seq<Block>, size: nat, i: nat, need: nat)
    requires WellFormed(bs, size) && i < |bs| && bs[i].used
    requires MIN_SIZE <= need < Room(bs, size, i) && need % ALIGNMENT == 0
    ensures WellFormed(Trim(bs, size, i, need), size)
    ensures var (x: Extent, y) := ((bs[i].start, End(bs, size, i)), Kept(bs, size, i, need));
            && UsedExtents(Trim(bs, size, i, need), size) == UsedExtents(bs, size) - {x} + {y}
            && UsedBytes(Trim(bs, size, i, need), size) == UsedBytes(bs, size) - x.1 + y.1
            && y.1 <= x.1 && need + HEADER <= y.1 - y.0
            && (y.1 - y.0 == need + HEADER || (y == x && y.1 - y.0 < need + HEADER + HEADER + MIN_SIZE))
  {
    var t := Trim(bs, size, i, need);
    assert t[0].start == 0;
    if t == bs {
      ExtentOfUsedBlock(bs, size, i);
    } else {
      TrimTiles(bs, size, i, need);
      CutNoHoles(bs, i, bs[i].start + HEADER + need, if FreeAhead(bs, i) then bs[i + 2..] else bs[i + 1..]);
    }
  }

  lemma CutLowest(a: seq<Block>, u: Block, c: Block, b: seq<Block>, size: nat)
    requires u.used && !c.used
    ensures LowestFree(a + [u, c] + b, size) == LowestFree(a, c.start)
  {
    Split3(a, [u, c], b, size);
    assert [u, c][1..] == [c];
  }

  /** The updates of `lfree` in mem_trim. */
  lemma TrimLowest(bs: seq<Block>, size: nat, i: nat, need: nat)
    requires Tiles(bs, size) && i < |bs| && bs[i].used
    requires need < Room(bs, size, i)
    ensures var (cut, old_, t) := (bs[i].start + HEADER + need, LowestFree(bs, size), Trim(bs, size, i, need));
            LowestFree(t, size) ==
            if FreeAhead(bs, i) then (if old_ == bs[i + 1].start then cut else old_)
            else if t != bs && cut < old_ then cut else old_
  {
    var t, a, cut := Trim(bs, size, i, need), bs[..i], bs[i].start + HEADER + need;
    SplitAt(bs, size, i);
    if t != bs {
      var b := if FreeAhead(bs, i) then bs[i + 2..] else bs[i + 1..];
      assert t == a + [bs[i], Block(cut, false)] + b;
      CutLowest(a, bs[i], Block(cut, false), b, size);
      LowestInside(a, bs[i].start);
      LowestInside(bs[i + 1..], size);
      LowestPicks(a, bs[i].start, cut);
      LowestPicks(a, bs[i].start, LowestFree(bs[i + 1..], size));
    }
  }

  // ----- A well-formed chain is determined by the extents in use --------------------------

  lemma {:induction false} SameUseSameTail(a: seq<Block>, b: seq<Block>, size: nat)
    requires Tiles(a, size) && NoHoles(a) && Tiles(b, size) && NoHoles(b)
    requires Next(a, size) == Next(b, size)
    requires UsedExtents(a, size) == UsedExtents(b, size)
    ensures a == b
  {
    ExtentsInside(a, size);
    ExtentsInside(b, size);
    if a != [] && b != [] {
      var s, ea, eb := a[0].start, Next(a[1..], size), Next(b[1..], size);
      ExtentsInside(a[1..], size);
      ExtentsInside(b[1..], size);
      SameHead(a, b, size);
      assert UsedExtents(a[1..], size) == UsedExtents(b[1..], size) by {
        assert (s, ea) !in UsedExtents(a[1..], size) && (s, eb) !in UsedExtents(b[1..], size);
        assert UsedExtents(a[1..], size) == UsedExtents(a, size) - {(s, ea)};
        assert UsedExtents(b[1..], size) == UsedExtents(b, size) - {(s, eb)};
      }
      SameUseSameTail(a[1..], b[1..], size);
    }
  }

  lemma SameHead(a: seq<Block>, b: seq<Block>, size: nat)
    requires Tiles(a, size) && NoHoles(a) && Tiles(b, size) && NoHoles(b) && a != [] && b != []
    requires a[0].start == b[0].start
    requires UsedExtents(a, size) == UsedExtents(b, size)
    ensures a[0] == b[0] && Next(a[1..], size) == Next(b[1..], size)
  {
    HeadNotLonger(a, b, size);
    HeadNotLonger(b, a, size);
  }

  lemma HeadNotLonger(a: seq<Block>, b: seq<Block>, size: nat)
    requires Tiles(a, size) && NoHoles(a) && Tiles(b, size) && NoHoles(b) && a != [] && b != []
    requires a[0].start == b[0].start
    requires UsedExtents(a, size) == UsedExtents(b, size)
    ensures a[0].used ==> b[0].used
    ensures Next(a[1..], size) >= Next(b[1..], size)
  {
    var s, ea := a[0].start, Next(a[1..], size);
    ExtentsInside(a[1..], size);
    ExtentsInside(b[1..], size);
    if a[0].used {
      assert (s, ea) in UsedExtents(b, size);
    } else if a[1..] != [] {
      assert a[1].used && a[1..][0] == a[1];
      assert (ea, Next(a[1..][1..], size)) in UsedExtents(b, size);
    }
  }

  /** Two well-formed heaps with the same memory in use are the same chain, header for header. */
  lemma DeterminedByUse(a: seq<Block>, b: seq<Block>, size: nat)
    requires WellFormed(a, size) && WellFormed(b, size)
    requires UsedExtents(a, size) == UsedExtents(b, size)
    ensures a == b
  {
    SameUseSameTail(a, b, size);
  }

  // ----- Calls and runs -------------------------------------------------------------------

  /** The rounded size covers the request exactly up to 65532 bytes; above, 16 bits wrap. */
  lemma RoundedCovers(request: nat)
    requires request < U16_RANGE
    ensures Rounded(request) % ALIGNMENT == 0 && MIN_SIZE <= Rounded(request) < U16_RANGE
    ensures Rounded(request) >= request <==> request <= 65532
    ensures MIN_SIZE <= request <= 65532 ==> Rounded(request) < request + ALIGNMENT
    ensures request <= MIN_SIZE || request > 65532 ==> Rounded(request) == MIN_SIZE
  {
  }

  lemma IndexOfStart(bs: seq<Block>, size: nat, i: nat)
    requires Tiles(bs, size) && i < |bs|
    ensures IndexOf(bs, bs[i].start) == i
  {
    var k := IndexOf(bs, bs[i].start);
    if k < i { StartsAscend(bs, size, k, i); } else if i < k { StartsAscend(bs, size, i, k); }
  }

  lemma ApplyKeepsWellFormed(c: Call, bs: seq<Block>, size: nat)
    requires WellFormed(bs, size) && Legal(c, bs)
    ensures WellFormed(Apply(c, bs, size), size)
  {
    match c
    case Malloc(request) =>
      var i := FirstFit(bs, size, Rounded(request));
      RoundedCovers(request);
      if i < |bs| { MarkLaws(bs, size, i, Rounded(request)); }
    case Free(start) => ReleaseLaws(bs, size, IndexOf(bs, start));
    case Shrink(start, newsize) =>
      RoundedCovers(newsize);
      var i := IndexOf(bs, start);
      if Rounded(newsize) < Room(bs, size, i) { TrimLaws(bs, size, i, Rounded(newsize)); }
  }

  /** Every heap reached from mem_init by any run of legal calls is well formed. */
  lemma {:induction false} RunKeepsWellFormed(cs: seq<Call>, bs: seq<Block>, size: nat)
    requires WellFormed(bs, size) && LegalRun(cs, bs, size)
    ensures WellFormed(Run(cs, bs, size), size)
  {
    if cs != [] {
      ApplyKeepsWellFormed(cs[0], bs, size);
      RunKeepsWellFormed(cs[1..], Apply(cs[0], bs, size), size);
    }
  }

  lemma InitialIsWellFormed(size: nat)
    requires HeapSize(size)
    ensures WellFormed(Initial(), size) && UsedExtents(Initial(), size) == {}
    ensures LowestFree(Initial(), size) == 0 && UsedBytes(Initial(), size) == 0
  {
    assert Initial()[1..] == [];
  }

  function Frees(starts: seq<nat>): seq<Call> {
    seq(|starts|, i requires 0 <= i < |starts| => Free(starts[i]))
  }

  lemma {:induction false} FreesRemoveExtents(starts: seq<nat>, bs: seq<Block>, size: nat)
    requires WellFormed(bs, size) && LegalRun(Frees(starts), bs, size)
    ensures forall x :: x in UsedExtents(Run(Frees(starts), bs, size), size) ==>
              x in UsedExtents(bs, size) && x.0 !in starts
  {
    if starts != [] {
      var i := IndexOf(bs, starts[0]);
      var after := Release(bs, i);
      assert Frees(starts)[0] == Free(starts[0]) && Frees(starts)[1..] == Frees(starts[1..]);
      ReleaseLaws(bs, size, i);
      FreesRemoveExtents(starts[1..], after, size);
      forall x | x in UsedExtents(after, size) ensures x.0 != starts[0] {
        var k := BlockOfExtent(bs, size, x);
        IndexOfStart(bs, size, k);
      }
    }
  }

  /** Freeing every live block, in any order, brings back the single free block of mem_init. */
  lemma FreeingAllRestoresInitial(starts: seq<nat>, bs: seq<Block>, size: nat)
    requires HeapSize(size) && WellFormed(bs, size) && LegalRun(Frees(starts), bs, size)
    requires forall x :: x in UsedExtents(bs, size) ==> x.0 in starts
    ensures Run(Frees(starts), bs, size) == Initial()
  {
    var r := Run(Frees(starts), bs, size);
    RunKeepsWellFormed(Frees(starts), bs, size);
    FreesRemoveExtents(starts, bs, size);
    InitialIsWellFormed(size);
    DeterminedByUse(r, Initial(), size);
  }

  /** mem_free straight after a successful mem_malloc restores the chain exactly. */
  lemma FreeUndoesMalloc(bs: seq<Block>, size: nat, request: nat)
    requires WellFormed(bs, size) && 0 < request < U16_RANGE
    requires FirstFit(bs, size, Rounded(request)) < |bs| && Rounded(request) <= size
    ensures var i := FirstFit(bs, size, Rounded(request));
            var after := Apply(Malloc(request), bs, size);
            Live(after, bs[i].start) && Apply(Free(bs[i].start), after, size) == bs
  {
    var need := Rounded(request);
    var i := FirstFit(bs, size, need);
    var after := Mark(bs, size, i, need);
    var g := Granted(bs, size, i, need);
    RoundedCovers(request);
    MarkLaws(bs, size, i, need);
    assert after[i] == Block(bs[i].start, true);
    IndexOfStart(after, size, i);
    MarkedEnd(bs, size, i, need);
    ReleaseLaws(after, size, i);
    DeterminedByUse(Release(after, i), bs, size);
  }

  lemma MarkedEnd(bs: seq<Block>, size: nat, i: nat, need: nat)
    requires i < |bs| && need >= 0
    ensures i < |Mark(bs, size, i, need)|
    ensures End(Mark(bs, size, i, need), size, i) == Granted(bs, size, i, need).1
  {
    var m := Mark(bs, size, i, need);
    if Room(bs, size, i) >= need + HEADER + MIN_SIZE {
      assert m[i + 1..][0] == m[i + 1] == Block(bs[i].start + HEADER + need, false);
    } else {
      assert m[i + 1..] == bs[i + 1..];
    }
  }

  lemma {:induction false} LowestAtMost(bs: seq<Block>, size: nat, k: nat)
    requires Tiles(bs, size) && k < |bs| && !bs[k].used
    ensures LowestFree(bs, size) <= bs[k].start < size
  {
    ExtentsInside(bs, size);
    if k > 0 {
      StartsAscend(bs, size, 0, k);
      LowestAtMost(bs[1..], size, k - 1);
    }
  }

  /** LowestFree names a free block, or the end when every block is used. */
  lemma {:induction false} LowestIsPlace(bs: seq<Block>, size: nat) returns (k: nat)
    requires Tiles(bs, size)
    ensures k <= |bs| && (forall j :: 0 <= j < k ==> bs[j].used)
    ensures if k < |bs| then bs[k] == Block(LowestFree(bs, size), false) else LowestFree(bs, size) == size
  {
    if bs == [] || !bs[0].used {
      k := 0;
    } else {
      var l := LowestIsPlace(bs[1..], size);
      k := l + 1;
      forall j | 0 <= j < k ensures bs[j].used { if j > 0 { assert bs[j] == bs[1..][j - 1]; } }
    }
  }

  lemma GrantPlace(bs: seq<Block>, size: nat, i: nat, need: nat)
    requires Tiles(bs, size) && i < |bs|
    ensures var g := Granted(bs, size, i, need);
            g.0 % ALIGNMENT == 0 && (Fits(bs, size, i, need) ==> g.0 + HEADER + need <= g.1 <= size)
  {
    SplitAt(bs, size, i);
  }

  lemma GrantIsClear(bs: seq<Block>, size: nat, i: nat, need: nat, x: Extent)
    requires WellFormed(bs, size) && i < |bs| && Fits(bs, size, i, need)
    requires need >= MIN_SIZE && need % ALIGNMENT == 0 && x in UsedExtents(bs, size)
    ensures var g := Granted(bs, size, i, need); x.1 <= g.0 || g.1 <= x.0
  {
    MarkLaws(bs, size, i, need);
    LivePayloadsDisjoint(Mark(bs, size, i, need), size, x, Granted(bs, size, i, need));
  }

  lemma GrantLaws(bs: seq<Block>, size: nat, i: nat, need: nat)
    requires WellFormed(bs, size) && i < |bs| && Fits(bs, size, i, need)
    requires need >= MIN_SIZE && need % ALIGNMENT == 0
    ensures var g := Granted(bs, size, i, need);
            && UsedExtents(Mark(bs, size, i, need), size) == UsedExtents(bs, size) + {g}
            && (g.0 + HEADER) % ALIGNMENT == 0 && g.1 <= size
            && (forall x :: x in UsedExtents(bs, size) ==> x.1 <= g.0 || g.1 <= x.0)
            && need <= g.1 - g.0 - HEADER < need + HEADER + MIN_SIZE
  {
    MarkLaws(bs, size, i, need);
    GrantPlace(bs, size, i, need);
    forall x | x in UsedExtents(bs, size)
      ensures var g := Granted(bs, size, i, need); x.1 <= g.0 || g.1 <= x.0
    {
      GrantIsClear(bs, size, i, need, x);
    }
  }

  /** What a successful mem_malloc hands out: an aligned payload inside the heap, clear of every
      other live payload, and as long as requested exactly when the request is at most 65532. */
  lemma MallocGrants(bs: seq<Block>, size: nat, request: nat)
    requires WellFormed(bs, size) && 0 < request < U16_RANGE && size <= 64000
    requires FirstFit(bs, size, Rounded(request)) < |bs| && Rounded(request) <= size
    ensures var g := Granted(bs, size, FirstFit(bs, size, Rounded(request)), Rounded(request));
            && UsedExtents(Apply(Malloc(request), bs, size), size) == UsedExtents(bs, size) + {g}
            && (g.0 + HEADER) % ALIGNMENT == 0 && g.1 <= size
            && (forall x :: x in UsedExtents(bs, size) ==> x.1 <= g.0 || g.1 <= x.0)
            && (g.1 - g.0 - HEADER >= request <==> request <= 65532)
  {
    RoundedCovers(request);
    GrantLaws(bs, size, FirstFit(bs, size, Rounded(request)), Rounded(request));
  }
}
