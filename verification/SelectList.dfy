/** The data structures lwip_select works on in place: the doubly linked select_cb_list with its
    change counter, and the scan over the sockets. */
module SelectList {
  import opened Lists
  import opened Select

  class Entry {
    var next: Entry?
    var prev: Entry?

    constructor ()
      ensures next == null && prev == null
    {
      next, prev := null, null;
    }
  }

  class CbList {
    var head: Entry?          // select_cb_list
    var ctr: int              // select_cb_ctr
    ghost var order: seq<Entry>

    ghost predicate Valid()
      reads this, order
    {
      && Distinct(order)
      && head == At(order, 0)
      && (forall i {:trigger order[i].next} :: 0 <= i < |order| ==> order[i].next == At(order, i + 1))
      && (forall i {:trigger order[i].prev} :: 0 <= i < |order| ==> order[i].prev == At(order, i - 1))
    }

    constructor ()
      ensures Valid() && order == [] && ctr == 0
    {
      head, ctr, order := null, 0, [];
    }

    /** Put the entry on top of the list. */
    method Link(e: Entry)
      requires Valid() && e !in order && e.prev == null
      modifies this, e, order
      ensures Valid() && order == [e] + old(order) && ctr == old(ctr) + 1
    {
      e.next := head;
      if head != null {
        head.prev := e;
      }
      head := e;
      ctr := ctr + 1;
      order := [e] + order;
    }

    /** Take the entry at list position i off the list. */
    method Unlink(e: Entry, ghost i: nat)
      requires Valid() && i < |order| && e == order[i]
      modifies this, order
      ensures Valid() && order == Without(old(order), e) && ctr == old(ctr) + 1
    {
      ghost var was := order;
      assert e.next == At(was, i + 1) && e.prev == At(was, i - 1) && (head == e <==> i == 0);
      if e.next != null {
        e.next.prev := e.prev;
      }
      if head == e {
        head := e.next;
      } else {
        e.prev.next := e.next;
      }
      ctr := ctr + 1;
      WithoutAt(was, i);
      order := Without(was, e);
      forall j | 0 <= j < |order| ensures order[j].next == At(order, j + 1) && order[j].prev == At(order, j - 1) {
        var k := if j < i then j else j + 1;
        assert order[j] == was[k] && old(was[k].next) == At(was, k + 1) && old(was[k].prev) == At(was, k - 1);
      }
    }
  }

  lemma DistinctWithout(was: seq<Entry>, w: seq<Entry>, i: nat)
    requires Distinct(was) && i < |was| && w == was[..i] + was[i + 1..]
    ensures |w| == |was| - 1 && Distinct(w)
    ensures forall j {:trigger w[j]} :: 0 <= j < |w| ==> w[j] == was[if j < i then j else j + 1]
  {
  }

  lemma WithoutAt(was: seq<Entry>, i: nat)
    requires Distinct(was) && i < |was|
    ensures var w := Without(was, was[i]);
            && |w| == |was| - 1 && Distinct(w)
            && (forall j {:trigger w[j]} :: 0 <= j < |w| ==> w[j] == was[if j < i then j else j + 1])
  {
    IndexOfElement(was, i);
    DistinctWithout(was, Without(was, was[i]), i);
  }

  ghost function At(order: seq<Entry>, i: int): Entry? {
    if 0 <= i < |order| then order[i] else null
  }

  // ----- lwip_selscan ---------------------------------------------------------------------

  predicate ReadReady(i: nat, socks: map<nat, Sock>) {
    i in socks && (socks[i].lastdata || socks[i].rcvevent > 0)
  }

  predicate WriteReady(i: nat, socks: map<nat, Sock>) { i in socks && socks[i].sendevent }

  predicate ExceptReady(i: nat, socks: map<nat, Sock>) { i in socks && socks[i].errevent }

  /** The members of `fds` below n with the property p. */
  function Below(fds: set<nat>, n: nat, p: nat -> bool): set<nat> {
    set i | i in fds && i < n && p(i)
  }

  lemma BelowNext(fds: set<nat>, n: nat, p: nat -> bool)
    ensures Below(fds, n + 1, p) == Below(fds, n, p) + if n in fds && p(n) then {n} else {}
    ensures |Below(fds, n + 1, p)| == |Below(fds, n, p)| + if n in fds && p(n) then 1 else 0
  {
    assert Below(fds, n + 1, p) == Below(fds, n, p) + if n in fds && p(n) then {n} else {};
  }

  function ReadTest(socks: map<nat, Sock>): nat -> bool { (i: nat) => ReadReady(i, socks) }
  function WriteTest(socks: map<nat, Sock>): nat -> bool { (i: nat) => WriteReady(i, socks) }
  function ExceptTest(socks: map<nat, Sock>): nat -> bool { (i: nat) => ExceptReady(i, socks) }

  /** lwip_selscan on sockets that stay as they are: the result sets are exactly the requested
      sockets with events, and nready counts their members. */
  method Selscan(maxfdp1: nat, readset: set<nat>, writeset: set<nat>, exceptset: set<nat>, socks: map<nat, Sock>)
    returns (nready: nat, lreadset: set<nat>, lwriteset: set<nat>, lexceptset: set<nat>)
    ensures lreadset == Below(readset, maxfdp1, ReadTest(socks))
    ensures lwriteset == Below(writeset, maxfdp1, WriteTest(socks))
    ensures lexceptset == Below(exceptset, maxfdp1, ExceptTest(socks))
    ensures nready == |lreadset| + |lwriteset| + |lexceptset|
  {
    ghost var r, w, e := ReadTest(socks), WriteTest(socks), ExceptTest(socks);
    nready, lreadset, lwriteset, lexceptset := 0, {}, {}, {};
    for i := 0 to maxfdp1
      invariant lreadset == Below(readset, i, r)
      invariant lwriteset == Below(writeset, i, w)
      invariant lexceptset == Below(exceptset, i, e)
      invariant nready == |lreadset| + |lwriteset| + |lexceptset|
    {
      var n1, n2, n3;
      lreadset, n1 := Collect(readset, i, ReadReady(i, socks), lreadset, r);
      lwriteset, n2 := Collect(writeset, i, WriteReady(i, socks), lwriteset, w);
      lexceptset, n3 := Collect(exceptset, i, ExceptReady(i, socks), lexceptset, e);
      nready := nready + n1 + n2 + n3;
    }
  }

  /** One FD_ISSET test of the scan: set the bit for socket i and count it. */
  method Collect(fds: set<nat>, i: nat, ready: bool, found: set<nat>, ghost p: nat -> bool)
    returns (now: set<nat>, hits: nat)
    requires found == Below(fds, i, p) && ready == p(i)
    ensures now == Below(fds, i + 1, p) && |now| == |found| + hits
  {
    BelowNext(fds, i, p);
    if i in fds && ready {
      return found + {i}, 1;
    }
    return found, 0;
  }
}
