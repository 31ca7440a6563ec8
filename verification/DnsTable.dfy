/** The table of timed queries of dns.c on values: dns_check_entry, dns_recv, dns_enqueue and
    dns_lookup, and runs of them. Found-callbacks do not call the resolver. */
module DnsTable {
  import N = DnsNames
  import opened Counting
  import opened Octets

  const DNS_MAX_TTL := 604800
  const U32 := 0x1_0000_0000

  /** Which of the DNS_MAX_SERVERS servers have an address, and DNS_MAX_RETRIES. */
  datatype Config = Config(servers: seq<bool>, retries: nat)

  predicate Legal(cfg: Config) { cfg.servers != [] && 0 < cfg.retries < 0x100 }

  datatype QueryState = Unused | New | Asking | Done

  /** The callback of a query, named by the query; some queries have none. */
  datatype Found = NoCallback | Callback(id: nat)

  /** `junk` is what the name buffer holds behind the terminated name. */
  datatype Entry = Entry(state: QueryState, numdns: nat, tmr: nat, retries: nat, seqno: nat, ttl: nat,
                         name: seq<Byte>, junk: seq<Byte>, ipaddr: nat, found: Found)

  datatype Result = Failed | Address(ip: nat)

  datatype Fired = Fired(id: nat, result: Result)

  function Text(e: Entry): seq<Byte> { e.name + [0] + e.junk }

  function Notify(f: Found, r: Result): seq<Fired> { if f.Callback? then [Fired(f.id, r)] else [] }

  function Flush(e: Entry): Entry { e.(state := Unused, found := NoCallback) }

  // ----- dns_check_entry ------------------------------------------------------------------

  predicate NextServer(cfg: Config, numdns: nat) { numdns + 1 < |cfg.servers| && cfg.servers[numdns + 1] }

  /** The timer of an entry runs out, and with it the last retry on the last server. */
  predicate TimesOut(cfg: Config, e: Entry) {
    e.state.Asking? && e.tmr == 1 && e.retries + 1 == cfg.retries && !NextServer(cfg, e.numdns)
  }

  /** The 8-bit timer and the 32-bit TTL wrap below zero. */
  function Checked(cfg: Config, e: Entry): Entry {
    match e.state
    case New => e.(state := Asking, numdns := 0, tmr := 1, retries := 0)
    case Asking =>
      if e.tmr != 1 then e.(tmr := (e.tmr + 0xff) % 0x100)
      else if TimesOut(cfg, e) then Flush(e.(tmr := 0, retries := e.retries + 1))
      else if e.retries + 1 == cfg.retries then e.(numdns := e.numdns + 1, tmr := 1, retries := 0)
      else e.(retries := e.retries + 1, tmr := e.retries + 1)
    case Done => if e.ttl == 1 then Flush(e.(ttl := 0)) else e.(ttl := (e.ttl + U32 - 1) % U32)
    case Unused => e
  }

  function CheckFires(cfg: Config, e: Entry): seq<Fired> {
    if TimesOut(cfg, e) then Notify(e.found, Failed) else []
  }

  // ----- dns_recv -------------------------------------------------------------------------

  /** An answer record; `addr` says that it is an Internet address record of the right length. */
  datatype Record = Record(addr: bool, ttl: nat, ip: nat)

  /** `good`: a response without error code that carries one question. */
  datatype Reply = Reply(id: nat, good: bool, question: seq<N.Label>, answers: seq<Record>)

  function FirstAddress(answers: seq<Record>): (k: nat)
    ensures k <= |answers| && (k < |answers| ==> answers[k].addr)
    ensures forall j :: 0 <= j < k ==> !answers[j].addr
  {
    if answers == [] || answers[0].addr then 0 else 1 + FirstAddress(answers[1..])
  }

  predicate Accepts(e: Entry, r: Reply) {
    r.good && N.Matches(Text(e), 0, r.question) && FirstAddress(r.answers) < |r.answers|
  }

  function CappedTtl(ttl: nat): nat { if ttl > DNS_MAX_TTL then DNS_MAX_TTL else ttl }

  function Received(e: Entry, r: Reply): Entry {
    if !e.state.Asking? then e
    else if Accepts(e, r) then
      var a := r.answers[FirstAddress(r.answers)];
      e.(state := Done, ttl := CappedTtl(a.ttl), ipaddr := a.ip)
    else Flush(e)
  }

  function ReceiveFires(e: Entry, r: Reply): seq<Fired> {
    if !e.state.Asking? then []
    else Notify(e.found, if Accepts(e, r) then Address(r.answers[FirstAddress(r.answers)].ip) else Failed)
  }

  // ----- dns_enqueue ----------------------------------------------------------------------

  /** Age of a completed entry by its 8-bit sequence number, compared as ints. */
  function Age(table: seq<Entry>, seqno: nat, i: nat): int
    requires i < |table|
  {
    if table[i].state.Done? then seqno - table[i].seqno else 0
  }

  /** Of entries 0..n, the first of the greatest positive age; 0 if there is none. */
  function Oldest(table: seq<Entry>, seqno: nat, n: nat): (i: nat)
    requires n <= |table|
    ensures n > 0 ==> i < n
    ensures n == 0 ==> i == 0
    ensures forall j :: 0 <= j < n ==> Age(table, seqno, j) <= 0 || Age(table, seqno, j) <= Age(table, seqno, i)
    ensures i > 0 ==> Age(table, seqno, i) > 0
  {
    if n == 0 then 0
    else
      var i := Oldest(table, seqno, n - 1);
      var best := if n == 1 || Age(table, seqno, i) < 0 then 0 else Age(table, seqno, i);
      if Age(table, seqno, n - 1) > best then n - 1 else i
  }

  function FirstUnused(table: seq<Entry>): (i: nat)
    ensures i <= |table| && (i < |table| ==> table[i].state.Unused?)
    ensures forall j :: 0 <= j < i ==> !table[j].state.Unused?
  {
    if table == [] || table[0].state.Unused? then 0 else 1 + FirstUnused(table[1..])
  }

  /** The entry dns_enqueue takes; |table| if it refuses the query. */
  function Slot(table: seq<Entry>, seqno: nat): (i: nat)
    ensures i <= |table|
    ensures i < |table| ==> table[i].state.Unused? || table[i].state.Done?
  {
    if FirstUnused(table) < |table| then FirstUnused(table)
    else if table != [] && table[Oldest(table, seqno, |table|)].state.Done? then Oldest(table, seqno, |table|)
    else |table|
  }

  /** The new entry; the bytes of the old name behind the new one stay in the buffer. */
  function Fresh(e: Entry, seqno: nat, name: seq<Byte>, found: Found): Entry {
    e.(state := New, seqno := seqno, found := found, name := name,
       junk := if |name| + 1 <= |Text(e)| then Text(e)[|name| + 1..] else [])
  }

  // ----- Runs -----------------------------------------------------------------------------

  /** `fired` lists the callbacks called, `asked` the callbacks of all queries taken. */
  datatype State = State(table: seq<Entry>, seqno: nat, fired: seq<Fired>, asked: set<nat>)

  datatype Step =
    | Tick
    | Receive(reply: Reply)
    | Enqueue(name: seq<Byte>, found: Found)

  function CheckAt(cfg: Config, st: State, i: nat): State
    requires i < |st.table|
  {
    st.(table := st.table[i := Checked(cfg, st.table[i])], fired := st.fired + CheckFires(cfg, st.table[i]))
  }

  /** dns_check_entries up to entry n. */
  function CheckUpTo(cfg: Config, st: State, n: nat): (st': State)
    requires n <= |st.table|
    ensures |st'.table| == |st.table|
  {
    if n == 0 then st else CheckAt(cfg, CheckUpTo(cfg, st, n - 1), n - 1)
  }

  function ReceiveAt(st: State, r: Reply): State {
    if r.id >= |st.table| then st
    else
      var e := st.table[r.id];
      st.(table := st.table[r.id := Received(e, r)], fired := st.fired + ReceiveFires(e, r))
  }

  function WithId(asked: set<nat>, f: Found): set<nat> { if f.Callback? then asked + {f.id} else asked }

  function EnqueueAt(cfg: Config, st: State, name: seq<Byte>, found: Found): State {
    var i := Slot(st.table, st.seqno);
    if i == |st.table| then st
    else st.(table := st.table[i := Checked(cfg, Fresh(st.table[i], st.seqno, name, found))],
             seqno := (st.seqno + 1) % 0x100,
             asked := WithId(st.asked, found))
  }

  function Next(cfg: Config, st: State, step: Step): State {
    match step
    case Tick => CheckUpTo(cfg, st, |st.table|)
    case Receive(reply) => ReceiveAt(st, reply)
    case Enqueue(name, found) => EnqueueAt(cfg, st, name, found)
  }

  /** Every query has a callback of its own, and a name that dns_gethostbyname lets pass: not empty,
      not too long, and without a zero byte. */
  predicate Enabled(st: State, step: Step) {
    step.Enqueue? ==>
      && 0 < |step.name| < N.DNS_MAX_NAME_LENGTH && 0 !in step.name
      && (step.found.Callback? ==> step.found.id !in st.asked)
  }

  predicate Initial(st: State) {
    && (forall i :: 0 <= i < |st.table| ==>
          st.table[i].state.Unused? && st.table[i].found.NoCallback? && st.table[i].ttl == 0)
    && st.seqno < 0x100 && st.fired == [] && st.asked == {}
  }

  predicate Run(cfg: Config, trace: seq<State>, steps: seq<Step>) {
    && Legal(cfg) && |trace| == |steps| + 1 && Initial(trace[0])
    && (forall i :: 0 <= i < |steps| ==>
          Enabled(trace[i], steps[i]) && trace[i + 1] == Next(cfg, trace[i], steps[i]))
  }

  // ----- One callback per query -----------------------------------------------------------

  predicate PendingAt(table: seq<Entry>, i: nat, id: nat) {
    i < |table| && table[i].state.Asking? && table[i].found == Callback(id)
  }

  predicate HasFired(fired: seq<Fired>, id: nat) { exists k :: 0 <= k < |fired| && fired[k].id == id }

  predicate EntryOk(cfg: Config, e: Entry) {
    && !e.state.New? && e.ttl < U32
    && (e.state.Asking? ==>
          && e.numdns < |cfg.servers| && e.retries < cfg.retries
          && 0 < e.tmr <= (if e.retries == 0 then 1 else e.retries))
  }

  predicate TableOk(cfg: Config, table: seq<Entry>) { forall i :: 0 <= i < |table| ==> EntryOk(cfg, table[i]) }

  /** Every callback asked for either waits in one entry or was called, once. */
  ghost predicate OneEach(table: seq<Entry>, fired: seq<Fired>, asked: set<nat>) {
    && (forall i, j, id :: PendingAt(table, i, id) && PendingAt(table, j, id) ==> i == j)
    && (forall i, id :: PendingAt(table, i, id) ==> id in asked && !HasFired(fired, id))
    && (forall j, k :: 0 <= j < k < |fired| ==> fired[j].id != fired[k].id)
    && (forall k :: 0 <= k < |fired| ==> fired[k].id in asked)
    && (forall id :: id in asked ==> HasFired(fired, id) || exists i :: PendingAt(table, i, id))
  }

  ghost predicate Inv(cfg: Config, st: State) {
    TableOk(cfg, st.table) && OneEach(st.table, st.fired, st.asked) && st.seqno < 0x100
  }

  /** An entry changes without starting, ending or changing a query. */
  lemma SameWait(table: seq<Entry>, fired: seq<Fired>, asked: set<nat>, i: nat, e: Entry)
    requires OneEach(table, fired, asked) && i < |table| && table[i].state.Asking? == e.state.Asking?
    requires e.state.Asking? ==> e.found == table[i].found
    ensures OneEach(table[i := e], fired, asked)
  {
    var table' := table[i := e];
    assert forall j, id :: PendingAt(table', j, id) <==> PendingAt(table, j, id);
  }

  lemma NotifyFires(f: Found, r: Result, id: nat)
    ensures HasFired(Notify(f, r), id) <==> f == Callback(id)
  {
    if f == Callback(id) { assert Notify(f, r)[0].id == id; }
  }

  lemma FiredAppend(a: seq<Fired>, b: seq<Fired>, id: nat)
    ensures HasFired(a + b, id) <==> HasFired(a, id) || HasFired(b, id)
  {
    if HasFired(a, id) {
      var k :| 0 <= k < |a| && a[k].id == id;
      assert (a + b)[k].id == id;
    }
    if HasFired(b, id) {
      var k :| 0 <= k < |b| && b[k].id == id;
      assert (a + b)[|a| + k].id == id;
    }
  }

  /** A waiting entry is notified and stops waiting. */
  lemma Answered(table: seq<Entry>, fired: seq<Fired>, asked: set<nat>, i: nat, e: Entry, r: Result)
    requires OneEach(table, fired, asked) && i < |table| && table[i].state.Asking? && !e.state.Asking?
    ensures OneEach(table[i := e], fired + Notify(table[i].found, r), asked)
  {
    var (f, table') := (table[i].found, table[i := e]);
    var fired' := fired + Notify(f, r);
    assert forall j, id :: PendingAt(table', j, id) <==> PendingAt(table, j, id) && j != i;
    forall id ensures HasFired(fired', id) <==> HasFired(fired, id) || f == Callback(id) {
      FiredAppend(fired, Notify(f, r), id);
      NotifyFires(f, r, id);
    }
    if f.Callback? {
      assert PendingAt(table, i, f.id);
      assert forall k :: 0 <= k < |fired| ==> fired[k].id != f.id;
    }
    forall id | id in asked ensures HasFired(fired', id) || exists j :: PendingAt(table', j, id) {
      if !HasFired(fired, id) {
        var j :| PendingAt(table, j, id);
        assert j == i || PendingAt(table', j, id);
      }
    }
  }

  /** An idle entry takes up a new query. */
  lemma NewQuery(table: seq<Entry>, fired: seq<Fired>, asked: set<nat>, i: nat, e: Entry)
    requires OneEach(table, fired, asked) && i < |table| && !table[i].state.Asking? && e.state.Asking?
    requires e.found.Callback? ==> e.found.id !in asked
    ensures OneEach(table[i := e], fired, WithId(asked, e.found))
  {
    var (table', asked') := (table[i := e], WithId(asked, e.found));
    assert forall j, id :: PendingAt(table', j, id) <==> PendingAt(table, j, id) || (j == i && e.found == Callback(id));
    forall id | id in asked' ensures HasFired(fired, id) || exists j :: PendingAt(table', j, id) {
      if e.found == Callback(id) {
        assert PendingAt(table', i, id);
      } else if !HasFired(fired, id) {
        var j :| PendingAt(table, j, id);
        assert PendingAt(table', j, id);
      }
    }
  }

  lemma CheckAtKeeps(cfg: Config, st: State, i: nat)
    requires Legal(cfg) && Inv(cfg, st) && i < |st.table|
    ensures Inv(cfg, CheckAt(cfg, st, i))
  {
    var e := st.table[i];
    assert EntryOk(cfg, e);
    if TimesOut(cfg, e) {
      Answered(st.table, st.fired, st.asked, i, Checked(cfg, e), Failed);
    } else {
      SameWait(st.table, st.fired, st.asked, i, Checked(cfg, e));
      assert st.fired + CheckFires(cfg, e) == st.fired;
    }
  }

  lemma {:induction false} CheckUpToKeeps(cfg: Config, st: State, n: nat)
    requires Legal(cfg) && Inv(cfg, st) && n <= |st.table|
    ensures Inv(cfg, CheckUpTo(cfg, st, n))
  {
    if n > 0 {
      CheckUpToKeeps(cfg, st, n - 1);
      CheckAtKeeps(cfg, CheckUpTo(cfg, st, n - 1), n - 1);
    }
  }

  lemma ReceiveKeeps(cfg: Config, st: State, r: Reply)
    requires Legal(cfg) && Inv(cfg, st)
    ensures Inv(cfg, ReceiveAt(st, r))
  {
    if r.id < |st.table| {
      var e := st.table[r.id];
      assert EntryOk(cfg, e);
      if e.state.Asking? {
        Answered(st.table, st.fired, st.asked, r.id, Received(e, r),
                 if Accepts(e, r) then Address(r.answers[FirstAddress(r.answers)].ip) else Failed);
      } else {
        SameWait(st.table, st.fired, st.asked, r.id, e);
        assert st.fired + ReceiveFires(e, r) == st.fired;
      }
    }
  }

  lemma EnqueueKeeps(cfg: Config, st: State, name: seq<Byte>, found: Found)
    requires Legal(cfg) && Inv(cfg, st) && (found.Callback? ==> found.id !in st.asked)
    ensures Inv(cfg, EnqueueAt(cfg, st, name, found))
  {
    var i := Slot(st.table, st.seqno);
    if i < |st.table| {
      NewQuery(st.table, st.fired, st.asked, i, Checked(cfg, Fresh(st.table[i], st.seqno, name, found)));
    }
  }

  lemma StepKeeps(cfg: Config, st: State, step: Step)
    requires Legal(cfg) && Inv(cfg, st) && Enabled(st, step)
    ensures Inv(cfg, Next(cfg, st, step))
  {
    match step
    case Tick => CheckUpToKeeps(cfg, st, |st.table|);
    case Receive(reply) => ReceiveKeeps(cfg, st, reply);
    case Enqueue(name, found) => EnqueueKeeps(cfg, st, name, found);
  }

  lemma {:induction false} RunKeeps(cfg: Config, trace: seq<State>, steps: seq<Step>, n: nat)
    requires Run(cfg, trace, steps) && n < |trace|
    ensures Inv(cfg, trace[n])
  {
    if n > 0 {
      RunKeeps(cfg, trace, steps, n - 1);
      StepKeeps(cfg, trace[n - 1], steps[n - 1]);
    }
  }

  /** At every point of every run, each query taken waits in exactly one entry or was notified
      exactly once; a waiting entry leaves the table only by its notification. */
  lemma OneCallbackPerQuery(cfg: Config, trace: seq<State>, steps: seq<Step>, n: nat, id: nat)
    requires Run(cfg, trace, steps) && n < |trace| && id in trace[n].asked
    ensures if exists i :: PendingAt(trace[n].table, i, id) then
              && !HasFired(trace[n].fired, id)
              && forall i, j :: PendingAt(trace[n].table, i, id) && PendingAt(trace[n].table, j, id) ==> i == j
            else
              && HasFired(trace[n].fired, id)
              && forall j, k :: 0 <= j < k < |trace[n].fired| ==> trace[n].fired[j].id != trace[n].fired[k].id
  {
    RunKeeps(cfg, trace, steps, n);
  }

  // ----- How long a query waits -----------------------------------------------------------

  function Tri(n: nat): nat { if n == 0 then 0 else n + Tri(n - 1) }

  lemma {:induction false} TriIsHalf(n: nat)
    ensures Tri(n) == n * (n + 1) / 2
  {
    if n > 0 { TriIsHalf(n - 1); }
  }

  lemma {:induction false} TriGrows(m: nat, n: nat)
    requires m <= n
    ensures m <= Tri(m) <= Tri(n)
  {
    if m < n { TriGrows(m, n - 1); } else if m > 0 { TriGrows(m - 1, n - 1); }
  }

  /** Ticks one server gets. */
  function PerServer(cfg: Config): nat
    requires Legal(cfg)
  {
    1 + Tri(cfg.retries - 1)
  }

  function ServersLeft(cfg: Config, numdns: nat): nat
    requires Legal(cfg)
    decreases |cfg.servers| - numdns
  {
    if NextServer(cfg, numdns) then PerServer(cfg) + ServersLeft(cfg, numdns + 1) else 0
  }

  /** Ticks until a waiting entry times out. */
  function Left(cfg: Config, e: Entry): int
    requires Legal(cfg)
  {
    e.tmr + Tri(cfg.retries - 1) - Tri(e.retries) + ServersLeft(cfg, e.numdns)
  }

  /** DNS_MAX_SERVERS * (1 + R(R-1)/2). */
  function Deadline(cfg: Config): nat
    requires Legal(cfg)
  {
    |cfg.servers| * (1 + cfg.retries * (cfg.retries - 1) / 2)
  }

  lemma CheckedLeft(cfg: Config, e: Entry)
    requires Legal(cfg) && EntryOk(cfg, e) && e.state.Asking?
    ensures Left(cfg, e) > 0 && (TimesOut(cfg, e) <==> Left(cfg, e) == 1)
    ensures !TimesOut(cfg, e) ==> Checked(cfg, e).state.Asking? && Checked(cfg, e).found == e.found
                                  && Left(cfg, Checked(cfg, e)) == Left(cfg, e) - 1
  {
    TriGrows(e.retries, cfg.retries - 1);
    if e.retries + 1 < cfg.retries { TriGrows(e.retries + 1, cfg.retries - 1); }
  }

  lemma {:induction false} ServersLeftBound(cfg: Config, numdns: nat)
    requires Legal(cfg) && numdns < |cfg.servers|
    ensures ServersLeft(cfg, numdns) <= Times(|cfg.servers| - 1 - numdns, PerServer(cfg))
    decreases |cfg.servers| - numdns
  {
    if NextServer(cfg, numdns) { ServersLeftBound(cfg, numdns + 1); }
  }

  lemma PerServerIs(cfg: Config)
    requires Legal(cfg)
    ensures PerServer(cfg) == 1 + cfg.retries * (cfg.retries - 1) / 2
  {
    var (r, q) := (cfg.retries, cfg.retries - 1);
    TriIsHalf(q);
    assert q * (q + 1) == r * q;
  }

  lemma DeadlineIsTimes(cfg: Config)
    requires Legal(cfg)
    ensures Deadline(cfg) == Times(|cfg.servers|, PerServer(cfg))
  {
    PerServerIs(cfg);
    TimesIsProduct(|cfg.servers|, PerServer(cfg));
  }

  lemma LeftBound(cfg: Config, e: Entry)
    requires Legal(cfg) && EntryOk(cfg, e) && e.state.Asking?
    ensures Left(cfg, e) <= Deadline(cfg)
  {
    TriGrows(e.retries, cfg.retries - 1);
    ServersLeftBound(cfg, e.numdns);
    TimesGrows(|cfg.servers| - 1 - e.numdns, |cfg.servers| - 1, PerServer(cfg));
    DeadlineIsTimes(cfg);
  }

  lemma {:induction false} CheckUpToEntries(cfg: Config, st: State, n: nat)
    requires n <= |st.table|
    ensures var st' := CheckUpTo(cfg, st, n);
            && (forall j :: 0 <= j < n ==> st'.table[j] == Checked(cfg, st.table[j]))
            && (forall j :: n <= j < |st.table| ==> st'.table[j] == st.table[j])
            && st'.seqno == st.seqno && st'.asked == st.asked && st.fired <= st'.fired
  {
    if n > 0 { CheckUpToEntries(cfg, st, n - 1); }
  }

  lemma FiredStays(a: seq<Fired>, b: seq<Fired>, id: nat)
    requires a <= b && HasFired(a, id)
    ensures HasFired(b, id)
  {
    var k :| 0 <= k < |a| && a[k].id == id;
    assert b[k].id == id;
  }

  lemma {:induction false} TimeoutFires(cfg: Config, st: State, n: nat, i: nat, id: nat)
    requires i < n <= |st.table| && TimesOut(cfg, st.table[i]) && st.table[i].found == Callback(id)
    ensures HasFired(CheckUpTo(cfg, st, n).fired, id)
  {
    var before := CheckUpTo(cfg, st, n - 1);
    CheckUpToEntries(cfg, st, n - 1);
    if i == n - 1 {
      NotifyFires(Callback(id), Failed, id);
      FiredAppend(before.fired, Notify(Callback(id), Failed), id);
    } else {
      TimeoutFires(cfg, st, n - 1, i, id);
      FiredStays(before.fired, CheckUpTo(cfg, st, n).fired, id);
    }
  }

  /** The callback was called or will be within n ticks. */
  ghost predicate Within(cfg: Config, st: State, id: nat, n: int)
    requires Legal(cfg)
  {
    HasFired(st.fired, id) || exists i: nat :: PendingAt(st.table, i, id) && Left(cfg, st.table[i]) <= n
  }

  lemma TickWithin(cfg: Config, st: State, id: nat, n: int)
    requires Legal(cfg) && Inv(cfg, st) && Within(cfg, st, id, n)
    ensures Within(cfg, Next(cfg, st, Tick), id, n - 1)
  {
    var st' := CheckUpTo(cfg, st, |st.table|);
    CheckUpToEntries(cfg, st, |st.table|);
    if HasFired(st.fired, id) {
      FiredStays(st.fired, st'.fired, id);
    } else {
      var i: nat :| PendingAt(st.table, i, id) && Left(cfg, st.table[i]) <= n;
      assert EntryOk(cfg, st.table[i]);
      CheckedLeft(cfg, st.table[i]);
      if TimesOut(cfg, st.table[i]) {
        TimeoutFires(cfg, st, |st.table|, i, id);
      } else {
        assert PendingAt(st'.table, i, id);
      }
    }
  }

  lemma ReceiveWithin(cfg: Config, st: State, r: Reply, id: nat, n: int)
    requires Legal(cfg) && Within(cfg, st, id, n)
    ensures Within(cfg, ReceiveAt(st, r), id, n)
  {
    var st' := ReceiveAt(st, r);
    if HasFired(st.fired, id) {
      FiredStays(st.fired, st'.fired, id);
    } else {
      var i: nat :| PendingAt(st.table, i, id) && Left(cfg, st.table[i]) <= n;
      if r.id == i {
        var result := if Accepts(st.table[i], r) then Address(r.answers[FirstAddress(r.answers)].ip) else Failed;
        NotifyFires(Callback(id), result, id);
        FiredAppend(st.fired, Notify(Callback(id), result), id);
      } else {
        assert PendingAt(st'.table, i, id);
      }
    }
  }

  lemma StepWithin(cfg: Config, st: State, step: Step, id: nat, n: int)
    requires Legal(cfg) && Inv(cfg, st) && Within(cfg, st, id, n)
    ensures Within(cfg, Next(cfg, st, step), id, if step.Tick? then n - 1 else n)
  {
    match step
    case Tick => TickWithin(cfg, st, id, n);
    case Receive(reply) => ReceiveWithin(cfg, st, reply, id, n);
    case Enqueue(name, found) =>
      if !HasFired(st.fired, id) {
        var i: nat :| PendingAt(st.table, i, id) && Left(cfg, st.table[i]) <= n;
        assert PendingAt(Next(cfg, st, step).table, i, id);
      }
  }

  /** Ticks among steps m..n. */
  function Ticks(steps: seq<Step>, m: nat, n: nat): nat
    requires m <= n <= |steps|
  {
    if n == m then 0 else Ticks(steps, m, n - 1) + (if steps[n - 1].Tick? then 1 else 0)
  }

  lemma {:induction false} WithinDeadline(cfg: Config, trace: seq<State>, steps: seq<Step>, m: nat, n: nat, id: nat)
    requires Run(cfg, trace, steps) && m <= n < |trace| && id in trace[m].asked
    ensures Within(cfg, trace[n], id, Deadline(cfg) - Ticks(steps, m, n))
  {
    if n > m {
      WithinDeadline(cfg, trace, steps, m, n - 1, id);
      RunKeeps(cfg, trace, steps, n - 1);
      StepWithin(cfg, trace[n - 1], steps[n - 1], id, Deadline(cfg) - Ticks(steps, m, n - 1));
    } else {
      RunKeeps(cfg, trace, steps, n);
      if !HasFired(trace[n].fired, id) {
        var i: nat :| PendingAt(trace[n].table, i, id);
        assert EntryOk(cfg, trace[n].table[i]);
        LeftBound(cfg, trace[n].table[i]);
      }
    }
  }

  /** A query taken is notified within DNS_MAX_SERVERS * (1 + R(R-1)/2) ticks, whatever else
      happens: new queries, replies, and the ticks' own retries. */
  lemma CalledInTime(cfg: Config, trace: seq<State>, steps: seq<Step>, m: nat, n: nat, id: nat)
    requires Run(cfg, trace, steps) && m <= n < |trace| && id in trace[m].asked
    requires Ticks(steps, m, n) >= Deadline(cfg)
    ensures HasFired(trace[n].fired, id)
  {
    WithinDeadline(cfg, trace, steps, m, n, id);
    RunKeeps(cfg, trace, steps, n);
    if !HasFired(trace[n].fired, id) {
      var i: nat :| PendingAt(trace[n].table, i, id) && Left(cfg, trace[n].table[i]) <= 0;
      assert EntryOk(cfg, trace[n].table[i]);
      CheckedLeft(cfg, trace[n].table[i]);
    }
  }

  // ----- Freshness of the cache -----------------------------------------------------------

  /** dns_lookup: the first completed entry of that name. */
  function Lookup(table: seq<Entry>, name: seq<Byte>): (i: nat)
    ensures i <= |table| && (i < |table| ==> table[i].state.Done? && table[i].name == name)
    ensures forall j :: 0 <= j < i ==> !(table[j].state.Done? && table[j].name == name)
  {
    if table == [] || (table[0].state.Done? && table[0].name == name) then 0 else 1 + Lookup(table[1..], name)
  }

  /** Step s was the reply that completed the query for this name in entry i with this address,
      `left` ticks before its time to live ends, seen from step n. */
  predicate Source(trace: seq<State>, steps: seq<Step>, s: nat, n: nat, i: nat, name: seq<Byte>, ip: nat, left: int) {
    && s < n <= |steps| < |trace| && steps[s].Receive? && steps[s].reply.id == i < |trace[s].table|
    && trace[s].table[i].state.Asking? && trace[s].table[i].name == name && Accepts(trace[s].table[i], steps[s].reply)
    && var a := steps[s].reply.answers[FirstAddress(steps[s].reply.answers)];
       a.ip == ip && left == CappedTtl(a.ttl) - Ticks(steps, s, n)
  }

  /** Every address record of every reply has a time to live of at least 1. */
  predicate Positive(steps: seq<Step>) {
    forall s, k :: 0 <= s < |steps| && steps[s].Receive? && 0 <= k < |steps[s].reply.answers| ==>
      steps[s].reply.answers[k].addr ==> steps[s].reply.answers[k].ttl > 0
  }

  /** A completed entry was completed before, or has just been by this reply. */
  lemma DoneStep(cfg: Config, st: State, step: Step, i: nat)
    requires i < |st.table| == |Next(cfg, st, step).table| && !st.table[i].state.New? && st.table[i].ttl < U32
    requires Next(cfg, st, step).table[i].state.Done?
    ensures var (e, e') := (st.table[i], Next(cfg, st, step).table[i]);
            if e.state.Done? then
              && e'.name == e.name && e'.ipaddr == e.ipaddr
              && (e.ttl > 0 ==> 0 < e'.ttl == e.ttl - (if step.Tick? then 1 else 0))
            else
              && step.Receive? && step.reply.id == i && e.state.Asking? && Accepts(e, step.reply)
              && e' == Received(e, step.reply)
  {
    if step.Tick? { CheckUpToEntries(cfg, st, |st.table|); }
  }

  lemma FreshStep(cfg: Config, trace: seq<State>, steps: seq<Step>, m: nat, i: nat) returns (s: nat)
    requires Run(cfg, trace, steps) && Positive(steps) && m < |steps| && i < |trace[m].table| == |trace[m + 1].table|
    requires trace[m + 1].table[i].state.Done? && !trace[m].table[i].state.New? && trace[m].table[i].ttl < U32
    requires var e := trace[m].table[i];
             e.state.Done? ==> e.ttl > 0 && exists s: nat :: Source(trace, steps, s, m, i, e.name, e.ipaddr, e.ttl)
    ensures var e := trace[m + 1].table[i]; Source(trace, steps, s, m + 1, i, e.name, e.ipaddr, e.ttl) && e.ttl > 0
  {
    var e := trace[m].table[i];
    assert trace[m + 1] == Next(cfg, trace[m], steps[m]);
    DoneStep(cfg, trace[m], steps[m], i);
    if e.state.Done? {
      s :| Source(trace, steps, s, m, i, e.name, e.ipaddr, e.ttl);
    } else {
      s := m;
      assert Ticks(steps, m, m) == 0;
    }
  }

  lemma {:induction false} TableSize(cfg: Config, trace: seq<State>, steps: seq<Step>, n: nat)
    requires Run(cfg, trace, steps) && n < |trace|
    ensures |trace[n].table| == |trace[0].table|
  {
    if n > 0 {
      TableSize(cfg, trace, steps, n - 1);
      assert trace[n] == Next(cfg, trace[n - 1], steps[n - 1]);
    }
  }

  lemma {:induction false} EntriesFresh(cfg: Config, trace: seq<State>, steps: seq<Step>, n: nat, i: nat)
    requires Run(cfg, trace, steps) && Positive(steps) && n < |trace|
    requires i < |trace[n].table| && trace[n].table[i].state.Done?
    ensures var e := trace[n].table[i];
            e.ttl > 0 && exists s: nat :: Source(trace, steps, s, n, i, e.name, e.ipaddr, e.ttl)
  {
    if n > 0 {
      TableSize(cfg, trace, steps, n - 1);
      TableSize(cfg, trace, steps, n);
      RunKeeps(cfg, trace, steps, n - 1);
      assert EntryOk(cfg, trace[n - 1].table[i]);
      if trace[n - 1].table[i].state.Done? { EntriesFresh(cfg, trace, steps, n - 1, i); }
      var s := FreshStep(cfg, trace, steps, n - 1, i);
    }
  }

  /** What dns_lookup finds was carried by an accepted reply to a query for exactly that name,
      fewer than min(TTL, DNS_MAX_TTL) ticks ago. */
  lemma LookupIsFresh(cfg: Config, trace: seq<State>, steps: seq<Step>, n: nat, name: seq<Byte>) returns (s: nat)
    requires Run(cfg, trace, steps) && Positive(steps) && n < |trace|
    requires Lookup(trace[n].table, name) < |trace[n].table|
    ensures var i := Lookup(trace[n].table, name);
            && s < n && steps[s].Receive? && steps[s].reply.id == i < |trace[s].table|
            && trace[s].table[i].state.Asking? && trace[s].table[i].name == name
            && Accepts(trace[s].table[i], steps[s].reply)
            && var a := steps[s].reply.answers[FirstAddress(steps[s].reply.answers)];
               a.ip == trace[n].table[i].ipaddr && Ticks(steps, s, n) < CappedTtl(a.ttl)
  {
    var i := Lookup(trace[n].table, name);
    EntriesFresh(cfg, trace, steps, n, i);
    s :| Source(trace, steps, s, n, i, name, trace[n].table[i].ipaddr, trace[n].table[i].ttl);
  }

  function CheckedTimes(cfg: Config, e: Entry, n: nat): Entry
    decreases n
  {
    if n == 0 then e else CheckedTimes(cfg, Checked(cfg, e), n - 1)
  }

  lemma CheckedTtl(cfg: Config, e: Entry)
    requires e.ttl < U32 && (e.state.Done? || e.state.Unused?)
    ensures var e' := Checked(cfg, e);
            && e'.ttl < U32 && (e'.state.Done? || e'.state.Unused?)
            && (e'.state.Done? <==> e.state.Done? && e.ttl != 1)
            && (e'.state.Done? ==> e'.ttl == (if e.ttl == 0 then U32 else e.ttl) - 1)
  {
  }

  lemma {:induction false} Lifetime(cfg: Config, e: Entry, n: nat)
    requires e.ttl < U32 && (e.state.Done? || e.state.Unused?)
    ensures CheckedTimes(cfg, e, n).state.Done? <==> e.state.Done? && n < (if e.ttl == 0 then U32 else e.ttl)
    decreases n
  {
    if n > 0 {
      CheckedTtl(cfg, e);
      Lifetime(cfg, Checked(cfg, e), n - 1);
    }
  }

  /** Left alone, an accepted address is served for min(TTL, DNS_MAX_TTL) ticks if the TTL is at
      least 1; a TTL of 0 underflows, and the address is served for 2^32 ticks. */
  lemma ServedFor(cfg: Config, e: Entry, r: Reply, n: nat)
    requires e.state.Asking? && Accepts(e, r)
    ensures var ttl := r.answers[FirstAddress(r.answers)].ttl;
            CheckedTimes(cfg, Received(e, r), n).state.Done? <==>
              n < (if ttl == 0 then U32 else if ttl > DNS_MAX_TTL then DNS_MAX_TTL else ttl)
  {
    Lifetime(cfg, Received(e, r), n);
  }
}
