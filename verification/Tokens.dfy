/** Conservation of messages on a thread, and the ceiling. */
module Tokens {
  import opened Messages
  import opened Query
  import opened Cluster
  import opened Lineage

  // Messages still to be handled: unprocessed rows, and acked ones whose reply is not yet in the table.
  function Live(s: State, thread: string): nat {
    |Ids(s.table, Unprocessed(thread))| + |InFlight(s, thread)|
  }

  function Injected(s: State, thread: string): nat {
    |Ids(s.table, FromHuman(thread))|
  }

  function Sent(s: State, thread: string): nat {
    |Ids(s.table, FromAgents(thread))|
  }

  ghost predicate Conserved(s: State, thread: string) {
    Live(s, thread) <= Injected(s, thread)
  }

  // Rows sent by agents, and runners that will send one without looking at the count again.
  ghost predicate BelowCeiling(cfg: Config, s: State, thread: string) {
    cfg.ceiling != 0 ==> Sent(s, thread) + |PastCeiling(s, thread)| <= cfg.ceiling - 1
  }

  lemma Split(s: State, thread: string)
    ensures Count(s.table, thread) == Sent(s, thread) + Injected(s, thread)
  {
    var h := Ids(s.table, FromHuman(thread));
    var a := Ids(s.table, FromAgents(thread));
    assert Ids(s.table, OnThread(thread)) == h + a && h !! a;
  }

  lemma Subset<T>(s: set<T>, t: set<T>)
    requires s <= t
    ensures |s| <= |t|
  {
    assert t == s + (t - s);
  }

  lemma TableAppend(s: State, s': State, r: Row, thread: string)
    requires s'.table == s.table + [r]
    ensures Injected(s', thread) == Injected(s, thread) + (if FromHuman(thread)(r) then 1 else 0)
    ensures Sent(s', thread) == Sent(s, thread) + (if FromAgents(thread)(r) then 1 else 0)
    ensures |Ids(s'.table, Unprocessed(thread))|
              == |Ids(s.table, Unprocessed(thread))| + (if Unprocessed(thread)(r) then 1 else 0)
  {
    IdsAppend(s.table, r, FromHuman(thread));
    IdsAppend(s.table, r, FromAgents(thread));
    IdsAppend(s.table, r, Unprocessed(thread));
  }

  // Receiving and processing a row.
  lemma TableUpdate(s: State, s': State, i: nat, r: Row, thread: string)
    requires i < |s.table| && s'.table == s.table[i := r]
    requires r.thread == s.table[i].thread && r.sender == s.table[i].sender
    requires r.processed.Some? || s.table[i].processed.None?
    ensures Injected(s', thread) == Injected(s, thread) && Sent(s', thread) == Sent(s, thread)
    ensures |Ids(s'.table, Unprocessed(thread))|
         == |Ids(s.table, Unprocessed(thread))|
            - (if r.thread == thread && r.processed.Some? && s.table[i].processed.None? then 1 else 0)
  {
    IdsKept(s.table, i, r, FromHuman(thread));
    IdsKept(s.table, i, r, FromAgents(thread));
    if Unprocessed(thread)(r) == Unprocessed(thread)(s.table[i]) {
      IdsKept(s.table, i, r, Unprocessed(thread));
    } else {
      IdsDropped(s.table, i, r, Unprocessed(thread));
    }
  }

  function Tally(b: bool): nat { if b then 1 else 0 }

  predicate Carries(p: Pc, thread: string) {
    Dispatching(p) && p.job.thread == thread
  }

  predicate WillSend(p: Pc, thread: string) {
    Cleared(p) && p.job.thread == thread
  }

  // How one runner's move changes the numbers of runners.
  lemma RunnerCounts(s: State, s': State, a: Name, p: Pc, thread: string)
    requires a in s.pc && s'.pc == s.pc[a := p]
    ensures |InFlight(s', thread)|
              == |InFlight(s, thread)| - Tally(Carries(s.pc[a], thread)) + Tally(Carries(p, thread))
    ensures |PastCeiling(s', thread)|
              == |PastCeiling(s, thread)| - Tally(WillSend(s.pc[a], thread)) + Tally(WillSend(p, thread))
  {
    OneMoves(InFlight(s, thread), InFlight(s', thread), a);
    OneMoves(PastCeiling(s, thread), PastCeiling(s', thread), a);
  }

  lemma OneMoves(t: set<Name>, t': set<Name>, a: Name)
    requires forall b | b != a :: b in t <==> b in t'
    ensures |t'| == |t| - Tally(a in t) + Tally(a in t')
  {
    assert t - {a} == t' - {a};
    Without(t, a);
    Without(t', a);
  }

  lemma Without(t: set<Name>, a: Name)
    ensures |t - {a}| == |t| - Tally(a in t)
  {
    if a !in t { assert t - {a} == t; }
  }

  lemma SamePc(s: State, s': State, thread: string)
    requires s'.pc == s.pc
    ensures InFlight(s', thread) == InFlight(s, thread) && PastCeiling(s', thread) == PastCeiling(s, thread)
  {
  }

  // The effect of an action on the four numbers of a thread, for each kind of action.
  ghost predicate Kept(s: State, s': State, thread: string) {
    Injected(s', thread) == Injected(s, thread) && Sent(s', thread) == Sent(s, thread)
  }

  lemma ReceiveCounts(cfg: Config, s: State, a: Name, thread: string)
    requires ValidConfig(cfg) && Traced(cfg, s) && Enabled(cfg, s, Receive(a))
    ensures var s' := Apply(cfg, s, Receive(a));
            Kept(s, s', thread) && Live(s', thread) == Live(s, thread)
              && |PastCeiling(s', thread)| == |PastCeiling(s, thread)|
  {
    var s' := Apply(cfg, s, Receive(a));
    var id := Oldest(s.table, a).value;
    assert s.table[id].processed.None? by { OldestIsTheOldest(s.table, a); }
    TableUpdate(s, s', id, s'.table[id], thread);
    RunnerCounts(s, s', a, s'.pc[a], thread);
  }

  lemma AckCounts(cfg: Config, s: State, a: Name, thread: string)
    requires ValidConfig(cfg) && Traced(cfg, s) && Enabled(cfg, s, Ack(a))
    ensures var s' := Apply(cfg, s, Ack(a));
            Kept(s, s', thread) && Live(s', thread) <= Live(s, thread)
              && |PastCeiling(s', thread)| == |PastCeiling(s, thread)|
  {
    var s' := Apply(cfg, s, Ack(a));
    var id := s.pc[a].job.id;
    assert RunnerTraced(s, a, s.pc[a]);
    TableUpdate(s, s', id, s'.table[id], thread);
    RunnerCounts(s, s', a, s'.pc[a], thread);
  }

  lemma InsertCounts(cfg: Config, s: State, a: Name, thread: string)
    requires ValidConfig(cfg) && Traced(cfg, s) && Enabled(cfg, s, Insert(a))
    ensures var s' := Apply(cfg, s, Insert(a));
            var added := if s.pc[a].job.thread == thread then 1 else 0;
            && Injected(s', thread) == Injected(s, thread) && Sent(s', thread) == Sent(s, thread) + added
            && Live(s', thread) == Live(s, thread) && |PastCeiling(s', thread)| == |PastCeiling(s, thread)| - added
  {
    var s' := Apply(cfg, s, Insert(a));
    assert RunnerTraced(s, a, s.pc[a]);
    assert a != HUMAN;
    TableAppend(s, s', s.pc[a].row.(sent := Some(s.clock)), thread);
    RunnerCounts(s, s', a, Idle, thread);
  }

  lemma HumanInsertCounts(cfg: Config, s: State, k: nat, thread: string)
    requires ValidConfig(cfg) && Traced(cfg, s) && Enabled(cfg, s, HumanInsert(k))
    ensures var s' := Apply(cfg, s, HumanInsert(k));
            var added := if s.outbox[k].thread == thread then 1 else 0;
            && Injected(s', thread) == Injected(s, thread) + added && Sent(s', thread) == Sent(s, thread)
            && Live(s', thread) == Live(s, thread) + added && |PastCeiling(s', thread)| == |PastCeiling(s, thread)|
  {
    var s' := Apply(cfg, s, HumanInsert(k));
    assert Draft(s, s.outbox[k]);
    TableAppend(s, s', s.outbox[k].(sent := Some(s.clock)), thread);
    SamePc(s, s', thread);
  }

  lemma HumanReadCounts(cfg: Config, s: State, id: nat, thread: string)
    requires ValidConfig(cfg) && Traced(cfg, s) && Enabled(cfg, s, HumanRead(id))
    ensures var s' := Apply(cfg, s, HumanRead(id));
            Kept(s, s', thread) && Live(s', thread) <= Live(s, thread)
              && |PastCeiling(s', thread)| == |PastCeiling(s, thread)|
  {
    var s' := Apply(cfg, s, HumanRead(id));
    TableUpdate(s, s', id, s'.table[id], thread);
    SamePc(s, s', thread);
  }

  predicate TouchesTable(act: Action) {
    act.Receive? || act.Ack? || act.Insert? || act.HumanInsert? || act.HumanRead?
  }

  lemma QuietCarries(cfg: Config, s: State, act: Action, thread: string, a: Name)
    requires Enabled(cfg, s, act) && !TouchesTable(act) && a in Apply(cfg, s, act).pc
    ensures Apply(cfg, s, act).table == s.table
    ensures Carries(Apply(cfg, s, act).pc[a], thread) ==>
              a in s.pc && Carries(s.pc[a], thread) && Apply(cfg, s, act).pc[a].job == s.pc[a].job
    ensures WillSend(Apply(cfg, s, act).pc[a], thread) && !act.CheckCeiling? ==>
              a in s.pc && WillSend(s.pc[a], thread)
  {
  }

  // The other actions leave the table alone and put nothing in flight.
  lemma QuietCounts(cfg: Config, s: State, act: Action, thread: string)
    requires ValidConfig(cfg) && Traced(cfg, s) && Enabled(cfg, s, act) && !TouchesTable(act)
    ensures var s' := Apply(cfg, s, act);
            && s'.table == s.table && Live(s', thread) <= Live(s, thread)
            && (!act.CheckCeiling? ==> |PastCeiling(s', thread)| <= |PastCeiling(s, thread)|)
            && |PastCeiling(s', thread)| <= |InFlight(s', thread)| <= |InFlight(s, thread)|
  {
    var s' := Apply(cfg, s, act);
    forall a | a in s'.pc && Carries(s'.pc[a], thread) ensures a in s.pc && Carries(s.pc[a], thread) {
      QuietCarries(cfg, s, act, thread, a);
    }
    Subset(PastCeiling(s', thread), InFlight(s', thread));
    Subset(InFlight(s', thread), InFlight(s, thread));
    if !act.CheckCeiling? {
      forall a | a in s'.pc && WillSend(s'.pc[a], thread) ensures a in s.pc && WillSend(s.pc[a], thread) {
        QuietCarries(cfg, s, act, thread, a);
      }
      Subset(PastCeiling(s', thread), PastCeiling(s, thread));
    }
  }

  // Receiving and processing, by whoever.
  lemma UpdateCounts(cfg: Config, s: State, act: Action, thread: string)
    requires ValidConfig(cfg) && Traced(cfg, s) && Enabled(cfg, s, act)
    requires act.Receive? || act.Ack? || act.HumanRead?
    ensures var s' := Apply(cfg, s, act);
            Kept(s, s', thread) && Live(s', thread) <= Live(s, thread)
              && |PastCeiling(s', thread)| == |PastCeiling(s, thread)|
  {
    match act
    case Receive(a) => ReceiveCounts(cfg, s, a, thread);
    case Ack(a) => AckCounts(cfg, s, a, thread);
    case HumanRead(id) => HumanReadCounts(cfg, s, id, thread);
  }

  lemma StepConserves(cfg: Config, s: State, act: Action, thread: string)
    requires ValidConfig(cfg) && Traced(cfg, s) && Enabled(cfg, s, act)
    requires Conserved(s, thread)
    ensures Conserved(Apply(cfg, s, act), thread)
  {
    if act.Insert? {
      InsertCounts(cfg, s, act.agent, thread);
    } else if act.HumanInsert? {
      HumanInsertCounts(cfg, s, act.k, thread);
    } else if TouchesTable(act) {
      UpdateCounts(cfg, s, act, thread);
    } else {
      QuietCounts(cfg, s, act, thread);
    }
  }

  // The check sees every row of the thread, and conservation bounds the runners still to send by
  // the people's rows among them: so the count it compares leaves room for all of them.
  lemma CheckLeavesRoom(cfg: Config, s: State, a: Name, thread: string)
    requires ValidConfig(cfg) && Traced(cfg, s) && Enabled(cfg, s, CheckCeiling(a))
    requires Conserved(s, thread) && BelowCeiling(cfg, s, thread)
    ensures BelowCeiling(cfg, Apply(cfg, s, CheckCeiling(a)), thread)
  {
    var s' := Apply(cfg, s, CheckCeiling(a));
    QuietCounts(cfg, s, CheckCeiling(a), thread);
    Split(s, thread);
    RunnerCounts(s, s', a, s'.pc[a], thread);
  }

  lemma StepStaysBelowCeiling(cfg: Config, s: State, act: Action, thread: string)
    requires ValidConfig(cfg) && Traced(cfg, s) && Enabled(cfg, s, act)
    requires Conserved(s, thread) && BelowCeiling(cfg, s, thread)
    ensures BelowCeiling(cfg, Apply(cfg, s, act), thread)
  {
    if act.Insert? {
      InsertCounts(cfg, s, act.agent, thread);
    } else if act.HumanInsert? {
      HumanInsertCounts(cfg, s, act.k, thread);
    } else if act.CheckCeiling? {
      CheckLeavesRoom(cfg, s, act.agent, thread);
    } else if TouchesTable(act) {
      UpdateCounts(cfg, s, act, thread);
    } else {
      QuietCounts(cfg, s, act, thread);
    }
  }
}
