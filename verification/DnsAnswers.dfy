/** What the callbacks of the resolver are told, over every run: an address only from a reply that
    answers the query of its own Enqueue step, a failure only by a refused reply or after all servers
    had their time. */
module DnsAnswers {
  import opened Counting
  import opened DnsTable
  import opened Octets
  import N = DnsNames

  // ----- One reply ------------------------------------------------------------------------

  /** Record k is the first address record. */
  predicate FirstIs(answers: seq<Record>, k: nat) {
    k < |answers| && answers[k].addr && forall j :: 0 <= j < k ==> !answers[j].addr
  }

  /** A reply is accepted if it is a good one, its question is found in the name asked for, and it
      carries an address. */
  predicate Answers(name: seq<Byte>, r: Reply) {
    r.good && N.Matches(name, 0, r.question) && exists k :: 0 <= k < |r.answers| && r.answers[k].addr
  }

  function Told(fired: seq<Fired>, found: Found, result: Result): seq<Fired> {
    if found.Callback? then fired + [Fired(found.id, result)] else fired
  }

  /** A reply to a waiting query completes it with the first address, for the TTL but no more than a
      week, or ends it; either way its callback is called. Other replies change nothing. */
  lemma ReplyDecides(st: State, r: Reply, k: nat)
    requires FirstIs(r.answers, k) || forall j :: 0 <= j < |r.answers| ==> !r.answers[j].addr
    ensures var st' := ReceiveAt(st, r);
            if r.id >= |st.table| || !st.table[r.id].state.Asking? then st' == st
            else
              var (e, e') := (st.table[r.id], st'.table[r.id]);
              && st'.table == st.table[r.id := e'] && st'.seqno == st.seqno && st'.asked == st.asked
              && if Answers(e.name + [0] + e.junk, r) then
                   && k < |r.answers|
                   && var a := r.answers[k];
                      && e' == e.(state := Done, ipaddr := a.ip, ttl := if a.ttl < 604800 then a.ttl else 604800)
                      && st'.fired == Told(st.fired, e.found, Address(a.ip))
                 else
                   && e' == e.(state := Unused, found := NoCallback)
                   && st'.fired == Told(st.fired, e.found, DnsTable.Failed)
  {
    var f := FirstAddress(r.answers);
    if f < |r.answers| { assert f == k; }
  }

  // ----- Callbacks over runs --------------------------------------------------------------

  /** What a tick tells: the k-th callback failed, and its query was ended. */
  lemma {:induction false} TickTells(cfg: Config, st: State, n: nat, k: nat) returns (i: nat)
    requires n <= |st.table| && |st.fired| <= k < |CheckUpTo(cfg, st, n).fired|
    ensures var st' := CheckUpTo(cfg, st, n);
            i < n && PendingAt(st.table, i, st'.fired[k].id) && st'.fired[k].result == DnsTable.Failed
            && Checked(cfg, st.table[i]).state.Unused?
  {
    var before := CheckUpTo(cfg, st, n - 1);
    CheckUpToEntries(cfg, st, n - 1);
    if k < |before.fired| { i := TickTells(cfg, st, n - 1, k); } else { i := n - 1; }
  }

  /** A callback told of an address in this step was waiting in an entry that is completed with it. */
  predicate ToldTheTruth(st: State, st': State, step: Step, f: Fired, i: nat) {
    && i < |st'.table| && PendingAt(st.table, i, f.id)
    && match f.result
       case Address(ip) =>
         && st'.table[i].state.Done? && st'.table[i].ipaddr == ip && step.Receive? && step.reply.id == i
         && Answers(st.table[i].name + [0] + st.table[i].junk, step.reply)
         && var answers := step.reply.answers;
            exists m :: 0 <= m < |answers| && FirstIs(answers, m) && answers[m].ip == ip
       case Failed =>
         && st'.table[i].state.Unused?
         && (step.Tick? || (step.Receive? && step.reply.id == i
                            && !Answers(st.table[i].name + [0] + st.table[i].junk, step.reply)))
  }

  lemma ReplyTells(st: State, r: Reply, k: nat)
    requires |st.fired| <= k < |ReceiveAt(st, r).fired|
    ensures ToldTheTruth(st, ReceiveAt(st, r), Receive(r), ReceiveAt(st, r).fired[k], r.id)
  {
    ReplyDecides(st, r, FirstAddress(r.answers));
    var f := FirstAddress(r.answers);
    if f < |r.answers| { assert FirstIs(r.answers, f); }
  }

  lemma StepTells(cfg: Config, st: State, step: Step, k: nat) returns (i: nat)
    requires |st.fired| <= k < |Next(cfg, st, step).fired|
    ensures ToldTheTruth(st, Next(cfg, st, step), step, Next(cfg, st, step).fired[k], i)
  {
    i := 0;
    match step
    case Tick =>
      i := TickTells(cfg, st, |st.table|, k);
      CheckUpToEntries(cfg, st, |st.table|);
    case Receive(reply) =>
      i := reply.id;
      ReplyTells(st, reply, k);
    case Enqueue(_, _) => assert false;
  }

  lemma FiredGrows(cfg: Config, st: State, step: Step)
    ensures st.fired <= Next(cfg, st, step).fired
  {
    if step.Tick? { CheckUpToEntries(cfg, st, |st.table|); }
  }

  /** Every callback of every run is told the truth: it is called in the step that ends its query, with
      the address its entry is completed with, which a reply to this query carried first, or with a
      failure if the entry is given up. */
  lemma {:induction false} CallbacksAreTold(cfg: Config, trace: seq<State>, steps: seq<Step>, n: nat, k: nat)
    returns (m: nat, i: nat)
    requires Run(cfg, trace, steps) && n < |trace| && k < |trace[n].fired|
    ensures m < n && |trace[m].fired| <= k < |trace[m + 1].fired| && trace[m + 1].fired[k] == trace[n].fired[k]
    ensures ToldTheTruth(trace[m], trace[m + 1], steps[m], trace[n].fired[k], i)
  {
    assert n > 0;
    assert trace[n] == Next(cfg, trace[n - 1], steps[n - 1]);
    FiredGrows(cfg, trace[n - 1], steps[n - 1]);
    if k < |trace[n - 1].fired| {
      m, i := CallbacksAreTold(cfg, trace, steps, n - 1, k);
    } else {
      m := n - 1;
      i := StepTells(cfg, trace[m], steps[m], k);
    }
  }

  // ----- The name asked for ---------------------------------------------------------------

  lemma WaitingStep(cfg: Config, st: State, step: Step, i: nat)
    requires i < |st.table| == |Next(cfg, st, step).table| && Next(cfg, st, step).table[i].state.Asking?
    ensures var (e, e') := (st.table[i], Next(cfg, st, step).table[i]);
            || ((e.state.Asking? || e.state.New?) && e'.name == e.name && e'.found == e.found)
            || (step == Enqueue(e'.name, e'.found) && TakenAt(st, step, i))
  {
    if step.Tick? { CheckUpToEntries(cfg, st, |st.table|); }
  }

  predicate TakenAt(st: State, step: Step, i: nat) { step.Enqueue? && i == Slot(st.table, st.seqno) < |st.table| }

  /** At every point of every run, a waiting entry asks for the name, and has the callback, of an Enqueue
      step that took this entry. */
  lemma {:induction false} WaitsForItsName(cfg: Config, trace: seq<State>, steps: seq<Step>, n: nat, i: nat)
    returns (m: nat)
    requires Run(cfg, trace, steps) && n < |trace| && i < |trace[n].table| && trace[n].table[i].state.Asking?
    ensures m < n && TakenAt(trace[m], steps[m], i)
    ensures steps[m] == Enqueue(trace[n].table[i].name, trace[n].table[i].found)
  {
    TableSize(cfg, trace, steps, n);
    assert n > 0;
    TableSize(cfg, trace, steps, n - 1);
    RunKeeps(cfg, trace, steps, n - 1);
    assert EntryOk(cfg, trace[n - 1].table[i]);
    assert trace[n] == Next(cfg, trace[n - 1], steps[n - 1]);
    WaitingStep(cfg, trace[n - 1], steps[n - 1], i);
    var e := trace[n].table[i];
    if TakenAt(trace[n - 1], steps[n - 1], i) && steps[n - 1] == Enqueue(e.name, e.found) {
      m := n - 1;
    } else {
      m := WaitsForItsName(cfg, trace, steps, n - 1, i);
    }
  }

  /** An address is told only for the name the callback was asked with. */
  lemma AddressesAreForTheName(cfg: Config, trace: seq<State>, steps: seq<Step>, n: nat, k: nat)
    returns (a: nat, m: nat, junk: seq<Byte>)
    requires Run(cfg, trace, steps) && n < |trace| && k < |trace[n].fired| && trace[n].fired[k].result.Address?
    ensures a < m < n && steps[a].Enqueue? && steps[a].found == Callback(trace[n].fired[k].id)
    ensures steps[m].Receive? && Answers(steps[a].name + [0] + junk, steps[m].reply)
    ensures var answers := steps[m].reply.answers;
            exists j :: 0 <= j < |answers| && FirstIs(answers, j) && answers[j].ip == trace[n].fired[k].result.ip
  {
    var i;
    m, i := CallbacksAreTold(cfg, trace, steps, n, k);
    a := WaitsForItsName(cfg, trace, steps, m, i);
    junk := trace[m].table[i].junk;
  }

  // ----- How long a failure takes ---------------------------------------------------------

  /** How many servers a query is sent to, from this one on: up to the first that has no address. */
  function ServersFrom(cfg: Config, numdns: nat): nat
    requires numdns < |cfg.servers|
    decreases |cfg.servers| - numdns
  {
    if NextServer(cfg, numdns) then 1 + ServersFrom(cfg, numdns + 1) else 1
  }

  lemma {:induction false} ServersAreConfigured(cfg: Config, numdns: nat)
    requires numdns < |cfg.servers|
    ensures var end := numdns + ServersFrom(cfg, numdns);
            && numdns < end <= |cfg.servers| && (forall j :: numdns < j < end ==> cfg.servers[j])
            && (end == |cfg.servers| || !cfg.servers[end])
    decreases |cfg.servers| - numdns
  {
    if NextServer(cfg, numdns) { ServersAreConfigured(cfg, numdns + 1); }
  }

  lemma {:induction false} LeftIsServers(cfg: Config, numdns: nat)
    requires Legal(cfg) && numdns < |cfg.servers|
    ensures PerServer(cfg) + ServersLeft(cfg, numdns) == Times(ServersFrom(cfg, numdns), PerServer(cfg))
    decreases |cfg.servers| - numdns
  {
    if NextServer(cfg, numdns) { LeftIsServers(cfg, numdns + 1); }
  }

  /** Ticks from a query to its failure: for each of the servers, 1 + 1 + 2 + ... + (R - 1). */
  function Patience(cfg: Config): nat
    requires Legal(cfg)
  {
    ServersFrom(cfg, 0) * (1 + cfg.retries * (cfg.retries - 1) / 2)
  }

  lemma FreshPatience(cfg: Config, e: Entry)
    requires Legal(cfg) && e.state.Asking? && e.numdns == 0 && e.tmr == 1 && e.retries == 0
    ensures Left(cfg, e) == Patience(cfg)
  {
    LeftIsServers(cfg, 0);
    PerServerIs(cfg);
    TimesIsProduct(ServersFrom(cfg, 0), PerServer(cfg));
  }

  lemma {:induction false} StaysAsked(cfg: Config, trace: seq<State>, steps: seq<Step>, a: nat, n: nat, id: nat)
    requires Run(cfg, trace, steps) && a <= n < |trace| && id in trace[a].asked
    ensures id in trace[n].asked
  {
    if n > a {
      StaysAsked(cfg, trace, steps, a, n - 1, id);
      assert trace[n] == Next(cfg, trace[n - 1], steps[n - 1]);
      AskedGrows(cfg, trace[n - 1], steps[n - 1]);
    }
  }

  lemma AskedGrows(cfg: Config, st: State, step: Step)
    ensures st.asked <= Next(cfg, st, step).asked
  {
    if step.Tick? { CheckUpToEntries(cfg, st, |st.table|); }
  }

  /** What a step leaves of the time of a waiting entry that it does not fill anew. */
  lemma LeftStep(cfg: Config, st: State, step: Step, i: nat)
    requires Legal(cfg) && TableOk(cfg, st.table) && i < |st.table| == |Next(cfg, st, step).table|
    requires Next(cfg, st, step).table[i].state.Asking? && !TakenAt(st, step, i)
    ensures st.table[i].state.Asking?
    ensures Left(cfg, Next(cfg, st, step).table[i]) == Left(cfg, st.table[i]) - if step.Tick? then 1 else 0
  {
    assert EntryOk(cfg, st.table[i]);
    if step.Tick? {
      CheckUpToEntries(cfg, st, |st.table|);
      CheckedLeft(cfg, st.table[i]);
    }
  }

  lemma TakenFresh(cfg: Config, st: State, step: Step, i: nat)
    requires Legal(cfg) && TakenAt(st, step, i)
    ensures var e := Next(cfg, st, step).table[i];
            && |Next(cfg, st, step).table| == |st.table| && e.state.Asking? && e.found == step.found
            && e.numdns == 0 && e.tmr == 1 && e.retries == 0
            && (step.found.Callback? ==> step.found.id in Next(cfg, st, step).asked)
  {
  }

  /** A query that was asked before is still the same one. */
  lemma SameQuery(cfg: Config, st: State, step: Step, i: nat, id: nat)
    requires Legal(cfg) && TableOk(cfg, st.table) && i < |st.table| == |Next(cfg, st, step).table|
    requires Enabled(st, step) && id in st.asked && PendingAt(Next(cfg, st, step).table, i, id)
    ensures PendingAt(st.table, i, id)
    ensures Left(cfg, Next(cfg, st, step).table[i]) == Left(cfg, st.table[i]) - if step.Tick? then 1 else 0
  {
    if TakenAt(st, step, i) {
      TakenFresh(cfg, st, step, i);
      assert false;
    }
    LeftStep(cfg, st, step, i);
    WaitingStep(cfg, st, step, i);
  }

  lemma RunStep(cfg: Config, trace: seq<State>, steps: seq<Step>, n: nat)
    requires Run(cfg, trace, steps) && n < |steps|
    ensures Enabled(trace[n], steps[n]) && trace[n + 1] == Next(cfg, trace[n], steps[n])
    ensures |trace[n].table| == |trace[n + 1].table| && TableOk(cfg, trace[n].table)
  {
    TableSize(cfg, trace, steps, n);
    TableSize(cfg, trace, steps, n + 1);
    RunKeeps(cfg, trace, steps, n);
  }

  lemma TakenIsAsked(cfg: Config, trace: seq<State>, steps: seq<Step>, a: nat, i: nat)
    requires Run(cfg, trace, steps) && a < |steps| && TakenAt(trace[a], steps[a], i) && steps[a].found.Callback?
    ensures steps[a].found.id in trace[a + 1].asked
  {
    RunStep(cfg, trace, steps, a);
    TakenFresh(cfg, trace[a], steps[a], i);
  }

  lemma StartsFull(cfg: Config, trace: seq<State>, steps: seq<Step>, a: nat, i: nat)
    requires Run(cfg, trace, steps) && a < |steps| && TakenAt(trace[a], steps[a], i)
    ensures i < |trace[a + 1].table| && Left(cfg, trace[a + 1].table[i]) == Patience(cfg)
  {
    RunStep(cfg, trace, steps, a);
    TakenFresh(cfg, trace[a], steps[a], i);
    FreshPatience(cfg, trace[a + 1].table[i]);
  }

  lemma SameQueryInRun(cfg: Config, trace: seq<State>, steps: seq<Step>, a: nat, n: nat, i: nat, id: nat)
    requires Run(cfg, trace, steps) && a + 1 < n < |trace| && TakenAt(trace[a], steps[a], i)
    requires steps[a].found == Callback(id) && PendingAt(trace[n].table, i, id)
    ensures PendingAt(trace[n - 1].table, i, id)
    ensures Left(cfg, trace[n].table[i]) == Left(cfg, trace[n - 1].table[i]) - if steps[n - 1].Tick? then 1 else 0
  {
    TakenIsAsked(cfg, trace, steps, a, i);
    StaysAsked(cfg, trace, steps, a + 1, n - 1, id);
    RunStep(cfg, trace, steps, n - 1);
    SameQuery(cfg, trace[n - 1], steps[n - 1], i, id);
  }

  /** While a query waits, its time runs down by one with each tick and by nothing else. */
  lemma {:induction false} TimeRunsDown(cfg: Config, trace: seq<State>, steps: seq<Step>, a: nat, n: nat, i: nat,
                                        id: nat)
    requires Run(cfg, trace, steps) && a < n < |trace| && TakenAt(trace[a], steps[a], i)
    requires steps[a].found == Callback(id) && PendingAt(trace[n].table, i, id)
    ensures Left(cfg, trace[n].table[i]) == Patience(cfg) - Ticks(steps, a + 1, n)
  {
    if n == a + 1 {
      StartsFull(cfg, trace, steps, a, i);
    } else {
      SameQueryInRun(cfg, trace, steps, a, n, i, id);
      TimeRunsDown(cfg, trace, steps, a, n - 1, i, id);
    }
  }

  /** A query fails without a reply exactly when its servers' time is up: each server it can be sent to
      had all its retries. */
  lemma FailsInTime(cfg: Config, trace: seq<State>, steps: seq<Step>, a: nat, m: nat, i: nat, id: nat)
    requires Run(cfg, trace, steps) && a < m < |steps| && TakenAt(trace[a], steps[a], i)
    requires steps[a].found == Callback(id) && PendingAt(trace[m].table, i, id) && steps[m].Tick?
    ensures i < |trace[m + 1].table|
    ensures trace[m + 1].table[i].state.Unused? <==> Ticks(steps, a + 1, m + 1) == Patience(cfg)
  {
    TimeRunsDown(cfg, trace, steps, a, m, i, id);
    RunKeeps(cfg, trace, steps, m);
    assert EntryOk(cfg, trace[m].table[i]);
    CheckedLeft(cfg, trace[m].table[i]);
    assert trace[m + 1] == Next(cfg, trace[m], steps[m]);
    CheckUpToEntries(cfg, trace[m], |trace[m].table|);
  }
}
