/** A thread with one human message is a chain, and a chain over ranked agents is bounded. */
module Chain {
  import opened Messages
  import opened Query
  import opened Cluster
  import opened Lineage
  import opened Tokens
  import opened Streaks
  import opened LoopBound

  // Every destination of an agent other than itself ranks strictly lower.
  ghost predicate Ranked(cfg: Config, rank: Name -> nat) {
    forall a | a in cfg.agents :: rank(a) >= 1 && forall d | CanSend(cfg, a, d) && d != a :: rank(d) < rank(a)
  }

  predicate CanSend(cfg: Config, a: Name, d: Name)
    requires a in cfg.agents
  {
    cfg.agents[a].next == Some(d) || d in cfg.agents[a].routes
  }

  // A runner only ever carries a destination its configuration names.
  ghost predicate Directed(cfg: Config, s: State, a: Name) {
    a in s.pc && a in cfg.agents ==>
      var p := s.pc[a];
      && (p.Answered? && p.next.Some? ==> CanSend(cfg, a, p.next.value))
      && (p.Acked? || p.LoopPassed? || p.CeilingPassed? ==> CanSend(cfg, a, p.dest))
      && (p.Built? ==> CanSend(cfg, a, p.row.recipient))
  }

  lemma StepIsDirected(cfg: Config, s: State, act: Action, a: Name)
    requires Enabled(cfg, s, act) && Directed(cfg, s, a)
    ensures Directed(cfg, Apply(cfg, s, act), a)
  {
  }

  // Row i is the last of its thread.
  ghost predicate Tip(s: State, thread: string, i: nat) {
    var t := Thread(s.table, thread);
    i < |s.table| && t != [] && t[|t| - 1] == StampOf(s.table, i)
  }

  // Whatever is live on the thread is its last row.
  ghost predicate LiveAtTip(s: State, thread: string) {
    && (forall i: nat | i < |s.table| && Unprocessed(thread)(s.table[i]) :: Tip(s, thread, i))
    && (forall a | a in s.pc && Carries(s.pc[a], thread) :: Tip(s, thread, s.pc[a].job.id))
  }

  // A thread starts with a person's message.
  ghost predicate Rooted(s: State, thread: string) {
    Thread(s.table, thread) != [] ==> Injected(s, thread) >= 1
  }

  function Trailing(t: seq<Stamp>, a: Name): nat {
    if t == [] || !Self(t[|t| - 1], a) then 0 else 1 + Trailing(t[..|t| - 1], a)
  }

  lemma {:induction false} TrailingIsAStreak(t: seq<Stamp>, a: Name)
    ensures Trailing(t, a) <= |t| && AllSelf(t, a, |t| - Trailing(t, a), |t|)
  {
    if t == [] || !Self(t[|t| - 1], a) {
    } else {
      TrailingIsAStreak(t[..|t| - 1], a);
    }
  }

  // What the thread's last message can still cause: a full allowance of T self-sends and one
  // send downwards for each rank below, less the self-sends already made.
  function Budget(cfg: Config, rank: Name -> nat, t: seq<Stamp>): int
    requires t != []
  {
    var last := t[|t| - 1].recipient;
    rank(last) * (cfg.threshold + 1) - (if last in cfg.agents then Trailing(t, last) else 0)
  }

  ghost predicate WithinBudget(cfg: Config, rank: Name -> nat, t: seq<Stamp>) {
    t != [] ==> t[0].sender == HUMAN && |t| + Budget(cfg, rank, t) <= 1 + rank(t[0].recipient) * (cfg.threshold + 1)
  }

  ghost predicate OneSeed(cfg: Config, rank: Name -> nat, s: State, thread: string) {
    && Rooted(s, thread)
    && (Injected(s, thread) <= 1 ==> LiveAtTip(s, thread) && WithinBudget(cfg, rank, Thread(s.table, thread)))
  }

  lemma LowerRank(x: nat, y: nat, k: nat)
    requires x < y
    ensures x * k + k <= y * k
  {
    assert (x + 1) * k <= y * k;
  }

  // One more message at the end of a chain costs at least what it spends.
  lemma SendWithinBudget(cfg: Config, rank: Name -> nat, t: seq<Stamp>, x: Stamp)
    requires ValidConfig(cfg) && Ranked(cfg, rank) && t != [] && WithinBudget(cfg, rank, t)
    requires x.sender in cfg.agents && x.sender == t[|t| - 1].recipient && CanSend(cfg, x.sender, x.recipient)
    requires StreakBound(t, x.sender, cfg.threshold)
    ensures WithinBudget(cfg, rank, t + [x])
  {
    var T := cfg.threshold;
    var a := x.sender;
    assert (t + [x])[..|t|] == t;
    TrailingIsAStreak(t, a);
    if x.recipient == a {
      assert Trailing(t + [x], a) == 1 + Trailing(t, a);
    } else {
      LowerRank(rank(x.recipient), rank(a), T + 1);
      assert Trailing(t + [x], x.recipient) == 0;
    }
  }

  // A chain within budget has at most 1 + R * (T + 1) messages.
  lemma BudgetBoundsLength(cfg: Config, rank: Name -> nat, t: seq<Stamp>)
    requires Ranked(cfg, rank) && t != [] && WithinBudget(cfg, rank, t)
    requires forall a | a in cfg.agents :: StreakBound(t, a, cfg.threshold)
    ensures |t| <= 1 + rank(t[0].recipient) * (cfg.threshold + 1)
  {
    var last := t[|t| - 1].recipient;
    if last in cfg.agents {
      TrailingIsAStreak(t, last);
      assert Trailing(t, last) <= cfg.threshold;
      LowerRank(0, rank(last), cfg.threshold + 1);
    }
  }

  // ---- Steps ----

  lemma TipKept(s: State, s': State, thread: string, i: nat)
    requires |s.table| <= |s'.table| && Thread(s'.table, thread) == Thread(s.table, thread)
    requires i < |s.table| ==> StampOf(s'.table, i) == StampOf(s.table, i)
    requires Tip(s, thread, i)
    ensures Tip(s', thread, i)
  {
  }

  // Receiving and processing.
  lemma RowUpdateKeepsChain(cfg: Config, rank: Name -> nat, s: State, s': State, i: nat, thread: string)
    requires i < |s.table| && |s'.table| == |s.table| && s'.table == s.table[i := s'.table[i]]
    requires s'.table[i] == s.table[i].(received := s'.table[i].received, processed := s'.table[i].processed)
    requires s'.table[i].processed.None? ==> s.table[i].processed.None?
    requires forall a | a in s'.pc && Carries(s'.pc[a], thread) ::
               (a in s.pc && s'.pc[a] == s.pc[a]) || (s'.pc[a].job.id == i && Unprocessed(thread)(s.table[i]))
    requires OneSeed(cfg, rank, s, thread)
    ensures OneSeed(cfg, rank, s', thread)
  {
    ThreadKept(s.table, i, s'.table[i], thread);
    IdsKept(s.table, i, s'.table[i], FromHuman(thread));
    if Injected(s, thread) <= 1 {
      forall j: nat | j < |s'.table| && Unprocessed(thread)(s'.table[j]) ensures Tip(s', thread, j) {
        assert Unprocessed(thread)(s.table[j]);
        TipKept(s, s', thread, j);
      }
      forall a | a in s'.pc && Carries(s'.pc[a], thread) ensures Tip(s', thread, s'.pc[a].job.id) {
        TipKept(s, s', thread, s'.pc[a].job.id);
      }
    }
  }

  // A state with the same table in which nothing new is in flight.
  lemma SameTableKeepsChain(cfg: Config, rank: Name -> nat, s: State, s': State, thread: string)
    requires s'.table == s.table && OneSeed(cfg, rank, s, thread)
    requires forall a | a in s'.pc && Carries(s'.pc[a], thread) ::
               a in s.pc && Carries(s.pc[a], thread) && s'.pc[a].job == s.pc[a].job
    ensures OneSeed(cfg, rank, s', thread)
  {
    if Injected(s, thread) <= 1 {
      forall j: nat | j < |s'.table| && Unprocessed(thread)(s'.table[j]) ensures Tip(s', thread, j) {
        assert Tip(s, thread, j);
      }
      forall a | a in s'.pc && Carries(s'.pc[a], thread) ensures Tip(s', thread, s'.pc[a].job.id) {
        assert Tip(s, thread, s.pc[a].job.id);
      }
    }
  }

  lemma QuietTable(cfg: Config, s: State, act: Action)
    requires Enabled(cfg, s, act) && !TouchesTable(act)
    ensures Apply(cfg, s, act).table == s.table
  {
  }

  // Actions that leave the table alone.
  lemma QuietKeepsChain(cfg: Config, rank: Name -> nat, s: State, act: Action, thread: string)
    requires Enabled(cfg, s, act) && !TouchesTable(act) && OneSeed(cfg, rank, s, thread)
    ensures OneSeed(cfg, rank, Apply(cfg, s, act), thread)
  {
    var s' := Apply(cfg, s, act);
    QuietTable(cfg, s, act);
    forall a | a in s'.pc && Carries(s'.pc[a], thread)
      ensures a in s.pc && Carries(s.pc[a], thread) && s'.pc[a].job == s.pc[a].job
    {
      QuietCarries(cfg, s, act, thread, a);
    }
    SameTableKeepsChain(cfg, rank, s, s', thread);
  }

  // A new row on another thread.
  lemma OtherThreadKeepsChain(cfg: Config, rank: Name -> nat, s: State, s': State, r: Row, thread: string)
    requires s'.table == s.table + [r] && r.thread != thread
    requires forall a | a in s'.pc && Carries(s'.pc[a], thread) :: a in s.pc && s'.pc[a] == s.pc[a]
    requires OneSeed(cfg, rank, s, thread)
    ensures OneSeed(cfg, rank, s', thread)
  {
    SelectAppend(s.table, r, OnThread(thread));
    IdsAppend(s.table, r, FromHuman(thread));
    if Injected(s, thread) <= 1 {
      forall j: nat | j < |s'.table| && Unprocessed(thread)(s'.table[j]) ensures Tip(s', thread, j) {
        assert Unprocessed(thread)(s.table[j]);
        TipKept(s, s', thread, j);
      }
      forall a | a in s'.pc && Carries(s'.pc[a], thread) ensures Tip(s', thread, s'.pc[a].job.id) {
        TipKept(s, s', thread, s.pc[a].job.id);
      }
    }
  }

  lemma OnlyLive(s: State, thread: string, a: Name)
    requires Live(s, thread) <= 1 && a in InFlight(s, thread)
    ensures Ids(s.table, Unprocessed(thread)) == {} && InFlight(s, thread) == {a}
  {
    var flying := InFlight(s, thread);
    assert flying == {a} + (flying - {a});
  }

  // A new row with nothing else live on its thread is the only live one.
  lemma OnlyLiveRow(s: State, s': State, r: Row, thread: string)
    requires s'.table == s.table + [r] && Ids(s.table, Unprocessed(thread)) == {} && InFlight(s', thread) == {}
    requires Thread(s'.table, thread) == Thread(s.table, thread) + [StampOf(s'.table, |s.table|)]
    ensures LiveAtTip(s', thread)
  {
    IdsAppend(s.table, r, Unprocessed(thread));
    forall j: nat | j < |s'.table| && Unprocessed(thread)(s'.table[j]) ensures Tip(s', thread, j) {
      assert j in Ids(s'.table, Unprocessed(thread));
    }
    assert forall a | a in s'.pc :: Carries(s'.pc[a], thread) ==> a in InFlight(s', thread);
  }

  // The row a runner inserts on a one-seed thread continues the thread's last row.
  lemma InsertExtendsTip(cfg: Config, s: State, a: Name)
    requires ValidConfig(cfg) && Traced(cfg, s) && Enabled(cfg, s, Insert(a)) && Directed(cfg, s, a)
    requires Tip(s, s.pc[a].row.thread, s.pc[a].job.id)
    ensures var s' := Apply(cfg, s, Insert(a));
            var t := Thread(s.table, s.pc[a].row.thread);
            var x := StampOf(s'.table, |s.table|);
            && Thread(s'.table, s.pc[a].row.thread) == t + [x]
            && x.sender == a && a in cfg.agents && t != [] && t[|t| - 1].recipient == a && CanSend(cfg, a, x.recipient)
  {
    var r := s.pc[a].row.(sent := Some(s.clock));
    assert RunnerTraced(s, a, s.pc[a]);
    SelectAppend(s.table, r, OnThread(r.thread));
    var t := Thread(s.table, r.thread);
    assert Upto(t, r.created) == |t|;
  }

  lemma SenderLands(cfg: Config, s: State, a: Name, thread: string)
    requires Enabled(cfg, s, Insert(a)) && InFlight(s, thread) <= {a}
    ensures InFlight(Apply(cfg, s, Insert(a)), thread) == {}
  {
    var s' := Apply(cfg, s, Insert(a));
    assert forall b | b in s'.pc && Carries(s'.pc[b], thread) :: b in InFlight(s, thread);
  }

  // With room for one person's message and the runner's own in flight, nothing else is live.
  lemma SenderIsAlone(cfg: Config, s: State, a: Name)
    requires ValidConfig(cfg) && Traced(cfg, s) && Enabled(cfg, s, Insert(a)) && Conserved(s, s.pc[a].row.thread)
    ensures var thread := s.pc[a].row.thread;
            && Injected(Apply(cfg, s, Insert(a)), thread) == Injected(s, thread) >= 1
            && Carries(s.pc[a], thread)
            && (Injected(s, thread) <= 1 ==>
                  Ids(s.table, Unprocessed(thread)) == {} && InFlight(Apply(cfg, s, Insert(a)), thread) == {})
  {
    var thread := s.pc[a].row.thread;
    assert RunnerTraced(s, a, s.pc[a]);
    InsertCounts(cfg, s, a, thread);
    assert a in InFlight(s, thread);
    assert |InFlight(s, thread)| >= 1 by { Subset({a}, InFlight(s, thread)); }
    if Injected(s, thread) <= 1 {
      OnlyLive(s, thread, a);
      SenderLands(cfg, s, a, thread);
    }
  }

  lemma InsertKeepsChain(cfg: Config, rank: Name -> nat, s: State, a: Name)
    requires ValidConfig(cfg) && Traced(cfg, s) && Enabled(cfg, s, Insert(a))
    requires Ranked(cfg, rank) && Directed(cfg, s, a) && Conserved(s, s.pc[a].row.thread)
    requires StreakBound(Thread(s.table, s.pc[a].row.thread), a, cfg.threshold)
    requires OneSeed(cfg, rank, s, s.pc[a].row.thread)
    ensures OneSeed(cfg, rank, Apply(cfg, s, Insert(a)), s.pc[a].row.thread)
  {
    var s' := Apply(cfg, s, Insert(a));
    var thread := s.pc[a].row.thread;
    SenderIsAlone(cfg, s, a);
    if Injected(s, thread) <= 1 {
      InsertExtendsTip(cfg, s, a);
      OnlyLiveRow(s, s', s.pc[a].row.(sent := Some(s.clock)), thread);
      SendWithinBudget(cfg, rank, Thread(s.table, thread), StampOf(s'.table, |s.table|));
    }
  }

  lemma HumanInsertKeepsChain(cfg: Config, rank: Name -> nat, s: State, k: nat, thread: string)
    requires ValidConfig(cfg) && Traced(cfg, s) && Enabled(cfg, s, HumanInsert(k))
    requires Conserved(s, thread) && OneSeed(cfg, rank, s, thread) && s.outbox[k].thread == thread
    ensures OneSeed(cfg, rank, Apply(cfg, s, HumanInsert(k)), thread)
  {
    var s' := Apply(cfg, s, HumanInsert(k));
    var r := s.outbox[k].(sent := Some(s.clock));
    HumanInsertCounts(cfg, s, k, thread);
    SelectAppend(s.table, r, OnThread(thread));
    if Injected(s', thread) <= 1 {
      assert Thread(s.table, thread) == [];
      assert Ids(s.table, Unprocessed(thread)) == {} && InFlight(s, thread) == {};
      SamePc(s, s', thread);
      var x := StampOf(s'.table, |s.table|);
      assert Thread(s'.table, thread) == [x];
      OnlyLiveRow(s, s', r, thread);
      assert x.sender == HUMAN by { assert Draft(s, s.outbox[k]); }
      if x.recipient in cfg.agents {
        assert Trailing([x], x.recipient) == 0;
      }
    }
  }

  lemma ReceiveKeepsChain(cfg: Config, rank: Name -> nat, s: State, a: Name, thread: string)
    requires Enabled(cfg, s, Receive(a)) && OneSeed(cfg, rank, s, thread)
    ensures OneSeed(cfg, rank, Apply(cfg, s, Receive(a)), thread)
  {
    RowUpdateKeepsChain(cfg, rank, s, Apply(cfg, s, Receive(a)), Oldest(s.table, a).value, thread);
  }

  lemma AckKeepsChain(cfg: Config, rank: Name -> nat, s: State, a: Name, thread: string)
    requires Traced(cfg, s) && Enabled(cfg, s, Ack(a)) && OneSeed(cfg, rank, s, thread)
    ensures OneSeed(cfg, rank, Apply(cfg, s, Ack(a)), thread)
  {
    assert RunnerTraced(s, a, s.pc[a]);
    RowUpdateKeepsChain(cfg, rank, s, Apply(cfg, s, Ack(a)), s.pc[a].job.id, thread);
  }

  lemma HumanReadKeepsChain(cfg: Config, rank: Name -> nat, s: State, id: nat, thread: string)
    requires Enabled(cfg, s, HumanRead(id)) && OneSeed(cfg, rank, s, thread)
    ensures OneSeed(cfg, rank, Apply(cfg, s, HumanRead(id)), thread)
  {
    RowUpdateKeepsChain(cfg, rank, s, Apply(cfg, s, HumanRead(id)), id, thread);
  }

  lemma InsertElsewhereKeepsChain(cfg: Config, rank: Name -> nat, s: State, a: Name, thread: string)
    requires Enabled(cfg, s, Insert(a)) && s.pc[a].row.thread != thread && OneSeed(cfg, rank, s, thread)
    ensures OneSeed(cfg, rank, Apply(cfg, s, Insert(a)), thread)
  {
    OtherThreadKeepsChain(cfg, rank, s, Apply(cfg, s, Insert(a)), s.pc[a].row.(sent := Some(s.clock)), thread);
  }

  lemma HumanInsertElsewhereKeepsChain(cfg: Config, rank: Name -> nat, s: State, k: nat, thread: string)
    requires Enabled(cfg, s, HumanInsert(k)) && s.outbox[k].thread != thread && OneSeed(cfg, rank, s, thread)
    ensures OneSeed(cfg, rank, Apply(cfg, s, HumanInsert(k)), thread)
  {
    OtherThreadKeepsChain(cfg, rank, s, Apply(cfg, s, HumanInsert(k)), s.outbox[k].(sent := Some(s.clock)), thread);
  }

  lemma AnyInsertKeepsChain(cfg: Config, rank: Name -> nat, s: State, a: Name, thread: string)
    requires ValidConfig(cfg) && Traced(cfg, s) && Enabled(cfg, s, Insert(a))
    requires Ranked(cfg, rank) && Conserved(s, thread) && Directed(cfg, s, a)
    requires StreakBound(Thread(s.table, thread), a, cfg.threshold) && OneSeed(cfg, rank, s, thread)
    ensures OneSeed(cfg, rank, Apply(cfg, s, Insert(a)), thread)
  {
    if s.pc[a].row.thread == thread {
      InsertKeepsChain(cfg, rank, s, a);
    } else {
      InsertElsewhereKeepsChain(cfg, rank, s, a, thread);
    }
  }

  lemma AnyHumanInsertKeepsChain(cfg: Config, rank: Name -> nat, s: State, k: nat, thread: string)
    requires ValidConfig(cfg) && Traced(cfg, s) && Enabled(cfg, s, HumanInsert(k))
    requires Conserved(s, thread) && OneSeed(cfg, rank, s, thread)
    ensures OneSeed(cfg, rank, Apply(cfg, s, HumanInsert(k)), thread)
  {
    if s.outbox[k].thread == thread {
      HumanInsertKeepsChain(cfg, rank, s, k, thread);
    } else {
      HumanInsertElsewhereKeepsChain(cfg, rank, s, k, thread);
    }
  }

  // Receiving and processing, by whoever.
  lemma UpdateKeepsChain(cfg: Config, rank: Name -> nat, s: State, act: Action, thread: string)
    requires Traced(cfg, s) && Enabled(cfg, s, act) && (act.Receive? || act.Ack? || act.HumanRead?)
    requires OneSeed(cfg, rank, s, thread)
    ensures OneSeed(cfg, rank, Apply(cfg, s, act), thread)
  {
    match act
    case Receive(a) => ReceiveKeepsChain(cfg, rank, s, a, thread);
    case Ack(a) => AckKeepsChain(cfg, rank, s, a, thread);
    case HumanRead(id) => HumanReadKeepsChain(cfg, rank, s, id, thread);
  }

  lemma StepKeepsChain(cfg: Config, rank: Name -> nat, s: State, act: Action, thread: string)
    requires ValidConfig(cfg) && Traced(cfg, s) && Enabled(cfg, s, act)
    requires Ranked(cfg, rank) && Conserved(s, thread)
    requires act.Insert? ==>
               Directed(cfg, s, act.agent) && StreakBound(Thread(s.table, thread), act.agent, cfg.threshold)
    requires OneSeed(cfg, rank, s, thread)
    ensures OneSeed(cfg, rank, Apply(cfg, s, act), thread)
  {
    if act.Insert? {
      AnyInsertKeepsChain(cfg, rank, s, act.agent, thread);
    } else if act.HumanInsert? {
      AnyHumanInsertKeepsChain(cfg, rank, s, act.k, thread);
    } else if TouchesTable(act) {
      UpdateKeepsChain(cfg, rank, s, act, thread);
    } else {
      QuietKeepsChain(cfg, rank, s, act, thread);
    }
  }
}
