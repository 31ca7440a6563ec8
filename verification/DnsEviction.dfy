/** Which entry of the table a new query takes, and which queries are refused. */
module DnsEviction {
  import opened DnsTable
  import opened Octets
  import N = DnsNames

  /** A query is refused exactly if no entry is unused, no completed entry is older than the
      sequence number says, and entry 0 is not completed either. */
  lemma RefusedExactlyWhen(table: seq<Entry>, seqno: nat)
    requires table != []
    ensures Slot(table, seqno) == |table| <==>
              && (forall j :: 0 <= j < |table| ==> !table[j].state.Unused?)
              && (forall j :: 0 <= j < |table| && table[j].state.Done? ==> table[j].seqno >= seqno)
              && !table[0].state.Done?
  {
    var i := Oldest(table, seqno, |table|);
    if forall j :: 0 <= j < |table| && table[j].state.Done? ==> table[j].seqno >= seqno {
      assert Age(table, seqno, i) <= 0;
    } else {
      var j :| 0 <= j < |table| && table[j].state.Done? && table[j].seqno < seqno;
      assert Age(table, seqno, j) > 0;
    }
  }

  /** A query is refused only if every entry waits, and takes an unused entry or the oldest. */
  predicate TakesOldest(table: seq<Entry>, seqno: nat) {
    var i := Slot(table, seqno);
    if i == |table| then forall j :: 0 <= j < |table| ==> !table[j].state.Unused? && !table[j].state.Done?
    else
      || table[i].state.Unused?
      || (table[i].state.Done?
          && forall j :: 0 <= j < |table| && table[j].state.Done? ==> table[i].seqno <= table[j].seqno)
  }

  lemma UnwrappedTakesOldest(table: seq<Entry>, seqno: nat)
    requires table != []
    requires forall j :: 0 <= j < |table| && table[j].state.Done? ==> table[j].seqno < seqno
    ensures TakesOldest(table, seqno)
  {
    var i := Oldest(table, seqno, |table|);
    forall j | 0 <= j < |table| && table[j].state.Done? ensures Age(table, seqno, j) > 0 {}
    if table[i].state.Done? {
      forall j | 0 <= j < |table| && table[j].state.Done? ensures table[i].seqno <= table[j].seqno {
        assert Age(table, seqno, j) <= Age(table, seqno, i);
      }
    } else {
      forall j | 0 <= j < |table| ensures !table[j].state.Done? {
        assert Age(table, seqno, i) == 0;
      }
    }
  }

  // ----- Over runs ------------------------------------------------------------------------

  predicate TakesQuery(st: State, step: Step) { step.Enqueue? && Slot(st.table, st.seqno) < |st.table| }

  /** Queries taken in the first n steps. */
  function Taken(trace: seq<State>, steps: seq<Step>, n: nat): nat
    requires n <= |steps| < |trace|
  {
    if n == 0 then 0 else Taken(trace, steps, n - 1) + if TakesQuery(trace[n - 1], steps[n - 1]) then 1 else 0
  }

  /** Every entry in use was numbered before. */
  predicate Unwrapped(st: State) {
    forall j :: 0 <= j < |st.table| && !st.table[j].state.Unused? ==> st.table[j].seqno < st.seqno
  }

  lemma StepNumbers(cfg: Config, st: State, step: Step)
    requires Unwrapped(st) && (TakesQuery(st, step) ==> st.seqno + 1 < 0x100)
    ensures var st' := Next(cfg, st, step);
            st'.seqno == (st.seqno + if TakesQuery(st, step) then 1 else 0) && Unwrapped(st')
  {
    if step.Tick? { CheckUpToEntries(cfg, st, |st.table|); }
  }

  lemma {:induction false} NumbersRun(cfg: Config, trace: seq<State>, steps: seq<Step>, n: nat)
    requires Run(cfg, trace, steps) && n < |trace| && trace[0].seqno + Taken(trace, steps, n) < 0x100
    ensures trace[n].seqno == trace[0].seqno + Taken(trace, steps, n) && Unwrapped(trace[n])
  {
    if n > 0 {
      NumbersRun(cfg, trace, steps, n - 1);
      StepNumbers(cfg, trace[n - 1], steps[n - 1]);
    }
  }

  /** As long as the numbers of the queries taken have not wrapped, fewer than 256 from a fresh start,
      a query is refused only if every entry waits, and the completed entry it evicts is the oldest. */
  lemma OldestIsEvicted(cfg: Config, trace: seq<State>, steps: seq<Step>, n: nat)
    requires Run(cfg, trace, steps) && n < |trace| && trace[0].table != []
    requires trace[0].seqno + Taken(trace, steps, n) < 0x100
    ensures trace[n].table != [] && TakesOldest(trace[n].table, trace[n].seqno)
  {
    TableSize(cfg, trace, steps, n);
    NumbersRun(cfg, trace, steps, n);
    UnwrappedTakesOldest(trace[n].table, trace[n].seqno);
  }

  // ----- After wrapping -------------------------------------------------------------------

  /** The numbers of the queries in the entries after one more step, `total` being the next number. */
  function Renumbered(st: State, step: Step, total: nat, numbers: seq<nat>): seq<nat> {
    var i := Slot(st.table, st.seqno);
    if TakesQuery(st, step) && i < |numbers| then numbers[i := total] else numbers
  }

  /** The numbers of the queries the entries hold, counted without wrapping from trace[0].seqno. */
  function Numbers(trace: seq<State>, steps: seq<Step>, n: nat): seq<nat>
    requires n <= |steps| < |trace|
  {
    if n == 0 then seq(|trace[0].table|, _ => 0)
    else
      Renumbered(trace[n - 1], steps[n - 1], trace[0].seqno + Taken(trace, steps, n - 1), Numbers(trace, steps, n - 1))
  }

  /** Wrapped to 8 bits, the true numbers are the sequence numbers. */
  predicate Numbered(st: State, total: nat, numbers: seq<nat>) {
    && |numbers| == |st.table| && st.seqno == total % 0x100
    && forall i :: 0 <= i < |st.table| && !st.table[i].state.Unused? ==>
         st.table[i].seqno == numbers[i] % 0x100 && numbers[i] < total
  }

  /** An entry in use got its number in this step, or had it before. */
  lemma NumberKept(cfg: Config, st: State, step: Step, i: nat)
    requires i < |st.table| == |Next(cfg, st, step).table| && !Next(cfg, st, step).table[i].state.Unused?
    ensures var e' := Next(cfg, st, step).table[i];
            if TakesQuery(st, step) && Slot(st.table, st.seqno) == i then e'.seqno == st.seqno
            else !st.table[i].state.Unused? && e'.seqno == st.table[i].seqno
  {
    if step.Tick? { CheckUpToEntries(cfg, st, |st.table|); }
  }

  lemma SeqnoMoves(cfg: Config, st: State, step: Step)
    ensures var st' := Next(cfg, st, step);
            |st'.table| == |st.table| && st'.seqno == if TakesQuery(st, step) then (st.seqno + 1) % 0x100 else st.seqno
  {
    if step.Tick? { CheckUpToEntries(cfg, st, |st.table|); }
  }

  lemma StepWraps(cfg: Config, st: State, step: Step, total: nat, numbers: seq<nat>)
    requires Numbered(st, total, numbers)
    ensures Numbered(Next(cfg, st, step), total + if TakesQuery(st, step) then 1 else 0,
                     Renumbered(st, step, total, numbers))
  {
    var (st', numbers') := (Next(cfg, st, step), Renumbered(st, step, total, numbers));
    SeqnoMoves(cfg, st, step);
    forall i | 0 <= i < |st'.table| && !st'.table[i].state.Unused?
      ensures st'.table[i].seqno == numbers'[i] % 0x100
      ensures numbers'[i] < total + if TakesQuery(st, step) then 1 else 0
    {
      NumberKept(cfg, st, step, i);
    }
  }

  lemma NumbersStart(trace: seq<State>, steps: seq<Step>)
    requires |steps| < |trace| && Initial(trace[0])
    ensures Numbered(trace[0], trace[0].seqno + Taken(trace, steps, 0), Numbers(trace, steps, 0))
  {
  }

  lemma NumbersNext(cfg: Config, trace: seq<State>, steps: seq<Step>, n: nat)
    requires 0 < n <= |steps| < |trace| && trace[n] == Next(cfg, trace[n - 1], steps[n - 1])
    requires Numbered(trace[n - 1], trace[0].seqno + Taken(trace, steps, n - 1), Numbers(trace, steps, n - 1))
    ensures Numbered(trace[n], trace[0].seqno + Taken(trace, steps, n), Numbers(trace, steps, n))
  {
    var (st, step, total) := (trace[n - 1], steps[n - 1], trace[0].seqno + Taken(trace, steps, n - 1));
    StepWraps(cfg, st, step, total, Numbers(trace, steps, n - 1));
  }

  lemma {:induction false} NumbersWrap(cfg: Config, trace: seq<State>, steps: seq<Step>, n: nat)
    requires Run(cfg, trace, steps) && n < |trace|
    ensures Numbered(trace[n], trace[0].seqno + Taken(trace, steps, n), Numbers(trace, steps, n))
  {
    if n == 0 {
      NumbersStart(trace, steps);
    } else {
      NumbersWrap(cfg, trace, steps, n - 1);
      assert trace[n] == Next(cfg, trace[n - 1], steps[n - 1]);
      NumbersNext(cfg, trace, steps, n);
    }
  }

  /** How often the sequence number had wrapped when the query in entry i was numbered. */
  function WrapsBefore(number: nat): nat { number / 0x100 }

  /** No completed entry holds a query taken before the one in entry i. */
  predicate TakenFirst(table: seq<Entry>, numbers: seq<nat>, i: nat)
    requires i < |table| == |numbers|
  {
    forall j :: 0 <= j < |table| && table[j].state.Done? ==> numbers[i] <= numbers[j]
  }

  /** No completed entry was numbered before an earlier wrap than entry i, nor, if entry i does not
      look older than the sequence number, lower before the same wrap. */
  predicate LowestWrap(st: State, numbers: seq<nat>, i: nat)
    requires i < |st.table| == |numbers|
  {
    forall j :: 0 <= j < |st.table| && st.table[j].state.Done? ==>
      && WrapsBefore(numbers[i]) <= WrapsBefore(numbers[j])
      && (st.table[i].seqno >= st.seqno && WrapsBefore(numbers[i]) == WrapsBefore(numbers[j]) ==>
            st.table[i].seqno <= st.table[j].seqno)
  }

  lemma FirstOfAll(st: State, total: nat, numbers: seq<nat>, i: nat)
    requires Numbered(st, total, numbers) && i == Slot(st.table, st.seqno) < |st.table| && st.table[i].state.Done?
    ensures TakenFirst(st.table, numbers, i) <==> LowestWrap(st, numbers, i)
  {
    forall j | 0 <= j < |st.table| && st.table[j].state.Done?
      ensures st.table[i].seqno < st.seqno ==> st.table[i].seqno <= st.table[j].seqno
      ensures st.table[j].seqno == numbers[j] % 0x100
    {
      assert Age(st.table, st.seqno, j) <= 0 || Age(st.table, st.seqno, j) <= Age(st.table, st.seqno, i);
    }
  }

  /** Over every run, wrapping or not: the completed entry that a query evicts is the one whose query
      was taken first if and only if none of the others was numbered before an earlier wrap and, where
      entry 0 is evicted because none looks older than the sequence number, none was numbered lower
      before the same wrap. */
  lemma FirstIsEvictedExactlyWhen(cfg: Config, trace: seq<State>, steps: seq<Step>, n: nat, i: nat)
    requires Run(cfg, trace, steps) && n < |trace|
    requires i == Slot(trace[n].table, trace[n].seqno) < |trace[n].table| && trace[n].table[i].state.Done?
    ensures var (st, numbers) := (trace[n], Numbers(trace, steps, n));
            |numbers| == |st.table| && (TakenFirst(st.table, numbers, i) <==> LowestWrap(st, numbers, i))
  {
    NumbersWrap(cfg, trace, steps, n);
    FirstOfAll(trace[n], trace[0].seqno + Taken(trace, steps, n), Numbers(trace, steps, n), i);
  }

  // ----- Runs after which the numbers mislead ---------------------------------------------

  /** dns_gethostbyname enqueues a query only for a name that is not in the cache. */
  predicate NotCached(st: State, step: Step) { step.Enqueue? ==> Lookup(st.table, step.name) == |st.table| }

  predicate RunOfMisses(cfg: Config, trace: seq<State>, steps: seq<Step>) {
    Run(cfg, trace, steps) && forall i {:trigger steps[i]} :: 0 <= i < |steps| ==> NotCached(trace[i], steps[i])
  }

  lemma RunGoesOn(cfg: Config, trace: seq<State>, steps: seq<Step>, step: Step)
    requires RunOfMisses(cfg, trace, steps) && Enabled(trace[|steps|], step) && NotCached(trace[|steps|], step)
    ensures RunOfMisses(cfg, trace + [Next(cfg, trace[|steps|], step)], steps + [step])
  {
    var (trace', steps') := (trace + [Next(cfg, trace[|steps|], step)], steps + [step]);
    forall i | 0 <= i < |steps'|
      ensures Enabled(trace'[i], steps'[i]) && NotCached(trace'[i], steps'[i])
      ensures trace'[i + 1] == Next(cfg, trace'[i], steps'[i])
    {
      if i < |steps| { assert trace'[i] == trace[i] && trace'[i + 1] == trace[i + 1] && steps'[i] == steps[i]; }
    }
  }

  lemma RunGoesOnTwice(cfg: Config, trace: seq<State>, steps: seq<Step>, a: Step, b: Step)
    requires RunOfMisses(cfg, trace, steps) && Enabled(trace[|steps|], a) && NotCached(trace[|steps|], a)
    requires Enabled(Next(cfg, trace[|steps|], a), b) && NotCached(Next(cfg, trace[|steps|], a), b)
    ensures var (st, st') := (Next(cfg, trace[|steps|], a), Next(cfg, Next(cfg, trace[|steps|], a), b));
            RunOfMisses(cfg, trace + [st] + [st'], steps + [a] + [b])
  {
    RunGoesOn(cfg, trace, steps, a);
    RunGoesOn(cfg, trace + [Next(cfg, trace[|steps|], a)], steps + [a], b);
  }

  /** Two idle entries, and sequence number n. */
  predicate Idle(st: State, n: nat) {
    && |st.table| == 2 && st.table[0].state.Unused? && st.table[1].state.Unused?
    && st.seqno == n && st.fired == [] && st.asked == {}
  }

  /** The host names "a" and "b", asked for without a callback. */
  const NAME: seq<Byte> := [97]
  const OTHER: seq<Byte> := [98]
  const QUERY := Enqueue(NAME, NoCallback)
  const NEXT_QUERY := Enqueue(OTHER, NoCallback)

  /** The reply that gives an address for this name to the query in entry i. */
  function Answer(i: nat, name: seq<Byte>): Step { Receive(Reply(i, true, [name], [Record(true, 1, 0)])) }

  const ANSWER := Answer(1, NAME)
  const ERROR := Receive(Reply(0, false, [], []))

  /** A query without a callback is taken and then flushed. */
  lemma FlushedQuery(cfg: Config, st: State, n: nat)
    requires Idle(st, n) && n < 255
    ensures Idle(Next(cfg, Next(cfg, st, QUERY), ERROR), n + 1)
  {
    assert Slot(st.table, st.seqno) == 0;
  }

  /** n queries, each flushed by an error reply before the next. */
  lemma {:induction false} FlushedQueries(cfg: Config, e: Entry, n: nat) returns (trace: seq<State>, steps: seq<Step>)
    requires Legal(cfg) && e.state.Unused? && e.found.NoCallback? && e.ttl == 0 && n <= 255
    ensures RunOfMisses(cfg, trace, steps) && trace[0] == State([e, e], 0, [], {}) && Idle(trace[|steps|], n)
  {
    if n == 0 {
      trace, steps := [State([e, e], 0, [], {})], [];
    } else {
      trace, steps := FlushedQueries(cfg, e, n - 1);
      var st := trace[|steps|];
      var st' := Next(cfg, st, QUERY);
      FlushedQuery(cfg, st, n - 1);
      RunGoesOnTwice(cfg, trace, steps, QUERY, ERROR);
      trace, steps := trace + [st'] + [Next(cfg, st', ERROR)], steps + [QUERY] + [ERROR];
    }
  }

  lemma NameMatches(name: seq<Byte>, junk: seq<Byte>)
    ensures N.Matches(name + [0] + junk, 0, [name])
  {
    assert (name + [0] + junk)[0..|name|] == name && [name][1..] == [];
  }

  lemma NothingCached(table: seq<Entry>, name: seq<Byte>)
    requires forall j :: 0 <= j < |table| ==> !table[j].state.Done?
    ensures Lookup(table, name) == |table|
  {
    if Lookup(table, name) < |table| { assert false; }
  }

  /** The last two numbers are given to the two entries, and the second is answered. */
  lemma LastTwoNumbers(cfg: Config, st: State)
    requires Idle(st, 254)
    ensures var st3 := Next(cfg, Next(cfg, Next(cfg, st, QUERY), QUERY), ANSWER);
            && |st3.table| == 2 && st3.seqno == 0
            && st3.table[0].state.Asking? && st3.table[1].state.Done? && st3.table[1].seqno == 255
            && Slot(st3.table, st3.seqno) == 2
    ensures NotCached(Next(cfg, st, QUERY), QUERY)
  {
    var st1 := Next(cfg, st, QUERY);
    assert Slot(st.table, st.seqno) == 0;
    assert Slot(st1.table, st1.seqno) == 1;
    assert !st1.table[0].state.Done? && !st1.table[1].state.Done?;
    NothingCached(st1.table, NAME);
    NameMatches(NAME, Next(cfg, st1, QUERY).table[1].junk);
    var st3 := Next(cfg, Next(cfg, st1, QUERY), ANSWER);
    RefusedExactlyWhen(st3.table, st3.seqno);
  }

  /** After 256 queries a run refuses the next although a completed entry could be evicted. */
  lemma RunThatRefuses(cfg: Config, e: Entry) returns (trace: seq<State>, steps: seq<Step>)
    requires Legal(cfg) && e.state.Unused? && e.found.NoCallback? && e.ttl == 0
    ensures RunOfMisses(cfg, trace, steps) && trace[0] == State([e, e], 0, [], {})
    ensures var st := trace[|steps|];
            && |st.table| == 2 && st.seqno == 0 && st.table[1].state.Done? && st.table[1].seqno == 255
            && Slot(st.table, st.seqno) == 2
  {
    trace, steps := FlushedQueries(cfg, e, 254);
    var st := trace[|steps|];
    var (st1, st2) := (Next(cfg, st, QUERY), Next(cfg, Next(cfg, st, QUERY), QUERY));
    LastTwoNumbers(cfg, st);
    RunGoesOnTwice(cfg, trace, steps, QUERY, QUERY);
    RunGoesOn(cfg, trace + [st1] + [st2], steps + [QUERY] + [QUERY], ANSWER);
    trace := trace + [st1] + [st2] + [Next(cfg, st2, ANSWER)];
    steps := steps + [QUERY] + [QUERY] + [ANSWER];
  }

  /** The last number goes to entry 0 and the first one after it to entry 1; both are answered. */
  lemma LastAndFirstNumber(cfg: Config, st: State)
    requires Idle(st, 255)
    ensures var st1 := Next(cfg, st, QUERY);
            var st2 := Next(cfg, st1, Answer(0, NAME));
            var st3 := Next(cfg, st2, NEXT_QUERY);
            var st4 := Next(cfg, st3, Answer(1, OTHER));
            && Slot(st.table, st.seqno) == 0 && |st2.table| == 2 && Slot(st2.table, st2.seqno) == 1
            && NotCached(st, QUERY) && NotCached(st2, NEXT_QUERY)
            && |st4.table| == 2 && st4.seqno == 1
            && st4.table[0].state.Done? && st4.table[0].seqno == 255
            && st4.table[1].state.Done? && st4.table[1].seqno == 0 && Slot(st4.table, st4.seqno) == 1
  {
    var st1 := Next(cfg, st, QUERY);
    NothingCached(st.table, NAME);
    assert Slot(st.table, st.seqno) == 0;
    NameMatches(NAME, st1.table[0].junk);
    SecondNumber(cfg, Next(cfg, st1, Answer(0, NAME)));
  }

  lemma SecondNumber(cfg: Config, st: State)
    requires |st.table| == 2 && st.seqno == 0
    requires st.table[0].state.Done? && st.table[0].seqno == 255 && st.table[0].name == NAME
    requires st.table[1].state.Unused?
    ensures Slot(st.table, st.seqno) == 1 && NotCached(st, NEXT_QUERY)
    ensures var st' := Next(cfg, Next(cfg, st, NEXT_QUERY), Answer(1, OTHER));
            && |st'.table| == 2 && st'.seqno == 1 && st'.table[0] == st.table[0]
            && st'.table[1].state.Done? && st'.table[1].seqno == 0 && Slot(st'.table, st'.seqno) == 1
  {
    var st1 := Next(cfg, st, NEXT_QUERY);
    if Lookup(st.table, OTHER) < 2 { assert st.table[Lookup(st.table, OTHER)].state.Done?; }
    NameMatches(OTHER, st1.table[1].junk);
    var st' := Next(cfg, st1, Answer(1, OTHER));
    assert Age(st'.table, st'.seqno, 0) < 0 && Age(st'.table, st'.seqno, 1) > 0;
  }

  /** After 257 queries a run evicts the younger of two completed entries. */
  lemma RunThatEvictsTheYounger(cfg: Config, e: Entry) returns (trace: seq<State>, steps: seq<Step>)
    requires Legal(cfg) && e.state.Unused? && e.found.NoCallback? && e.ttl == 0
    ensures RunOfMisses(cfg, trace, steps) && trace[0] == State([e, e], 0, [], {})
    ensures var (st, n) := (trace[|steps|], |steps|);
            && |st.table| == 2 && st.table[0].state.Done? && st.table[1].state.Done? && Slot(st.table, st.seqno) == 1
            && |Numbers(trace, steps, n)| == 2 && Numbers(trace, steps, n)[0] < Numbers(trace, steps, n)[1]
  {
    trace, steps := FlushedQueries(cfg, e, 255);
    trace, steps := TwoMore(cfg, trace, steps);
    NumbersWrap(cfg, trace, steps, |steps| - 4);
    LastFour(trace, steps, |steps|);
  }

  lemma TwoMore(cfg: Config, trace: seq<State>, steps: seq<Step>) returns (trace': seq<State>, steps': seq<Step>)
    requires RunOfMisses(cfg, trace, steps) && Idle(trace[|steps|], 255)
    ensures RunOfMisses(cfg, trace', steps') && trace'[0] == trace[0] && |steps'| == |steps| + 4
    ensures var n := |steps'|;
            && steps'[n - 4] == QUERY && steps'[n - 3] == Answer(0, NAME)
            && steps'[n - 2] == NEXT_QUERY && steps'[n - 1] == Answer(1, OTHER)
            && |trace'[n - 4].table| == |trace'[n - 2].table| == 2
            && Slot(trace'[n - 4].table, trace'[n - 4].seqno) == 0
            && Slot(trace'[n - 2].table, trace'[n - 2].seqno) == 1
    ensures var st := trace'[|steps'|];
            |st.table| == 2 && st.table[0].state.Done? && st.table[1].state.Done? && Slot(st.table, st.seqno) == 1
  {
    var st := trace[|steps|];
    var st2 := Next(cfg, Next(cfg, st, QUERY), Answer(0, NAME));
    var st4 := Next(cfg, Next(cfg, st2, NEXT_QUERY), Answer(1, OTHER));
    LastAndFirstNumber(cfg, st);
    RunGoesOnTwice(cfg, trace, steps, QUERY, Answer(0, NAME));
    trace', steps' := trace + [Next(cfg, st, QUERY)] + [st2], steps + [QUERY] + [Answer(0, NAME)];
    RunGoesOnTwice(cfg, trace', steps', NEXT_QUERY, Answer(1, OTHER));
    trace', steps' := trace' + [Next(cfg, st2, NEXT_QUERY)] + [st4], steps' + [NEXT_QUERY] + [Answer(1, OTHER)];
  }

  /** The numbers two entries get in the last four steps. */
  lemma LastFour(trace: seq<State>, steps: seq<Step>, n: nat)
    requires 4 <= n == |steps| == |trace| - 1 && |Numbers(trace, steps, n - 4)| == 2
    requires steps[n - 4].Enqueue? && steps[n - 3].Receive? && steps[n - 2].Enqueue? && steps[n - 1].Receive?
    requires Slot(trace[n - 4].table, trace[n - 4].seqno) == 0 < |trace[n - 4].table|
    requires Slot(trace[n - 2].table, trace[n - 2].seqno) == 1 < |trace[n - 2].table|
    ensures |Numbers(trace, steps, n)| == 2 && Numbers(trace, steps, n)[0] < Numbers(trace, steps, n)[1]
  {
    assert Numbers(trace, steps, n) == Numbers(trace, steps, n - 1);
    assert Numbers(trace, steps, n - 2) == Numbers(trace, steps, n - 3);
    assert Taken(trace, steps, n - 2) == Taken(trace, steps, n - 3) == Taken(trace, steps, n - 4) + 1;
  }
}
