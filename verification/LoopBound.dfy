/** The self-loop check under interleaving: reading the tail, building the message and inserting it
    are separate actions, and rows of others may be inserted in between and out of order. */
module LoopBound {
  import opened Messages
  import opened Query
  import opened Checks
  import opened Cluster
  import opened Lineage
  import opened Streaks

  // What a runner that passed the check still relies on when it inserts.
  ghost predicate Guarded(cfg: Config, s: State, a: Name)
    requires a in s.pc
  {
    var p := s.pc[a];
    && ((p.LoopPassed? || p.CeilingPassed?) && p.dest == a ==> Room(Thread(s.table, p.job.thread), a, cfg.threshold))
    && (p.Built? && p.row.recipient == a ==>
          Room(Prefix(Thread(s.table, p.row.thread), p.row.created), a, cfg.threshold))
  }

  // For one agent and one thread.
  ghost predicate LoopSafe(cfg: Config, s: State, a: Name, thread: string)
    requires a in s.pc
  {
    cfg.threshold > 0 ==> Guarded(cfg, s, a) && StreakBound(Thread(s.table, thread), a, cfg.threshold)
  }

  lemma ThreadKept(rows: seq<Row>, i: nat, r: Row, thread: string)
    requires i < |rows| && r.thread == rows[i].thread && r.created == rows[i].created
    requires r.sender == rows[i].sender && r.recipient == rows[i].recipient
    ensures Thread(rows[i := r], thread) == Thread(rows, thread)
  {
    SelectUpdate(rows, i, r, OnThread(thread));
  }

  // A row that is not a self-send of a takes no room from a.
  lemma GuardedAfterOther(cfg: Config, s: State, s': State, r: Row, a: Name)
    requires a in s.pc && s'.table == s.table + [r] && a in s'.pc && s'.pc[a] == s.pc[a]
    requires Guarded(cfg, s, a) && r.sender != a
    ensures Guarded(cfg, s', a)
  {
    var p := s.pc[a];
    var x := Stamp(|s.table|, r.created, r.sender, r.recipient);
    if (p.LoopPassed? || p.CeilingPassed?) && p.dest == a {
      var t := Thread(s.table, p.job.thread);
      SelectAppend(s.table, r, OnThread(p.job.thread));
      RoomAfterOther(t, x, Upto(t, x.created), a, cfg.threshold);
    } else if p.Built? && p.row.recipient == a {
      SelectIsTheOrderedQuery(s.table, OnThread(p.row.thread));
      SelectAppend(s.table, r, OnThread(p.row.thread));
      RoomInPrefixAfterOther(Thread(s.table, p.row.thread), x, p.row.created, a, cfg.threshold);
    }
  }

  lemma StreakAfterForeignRow(s: State, r: Row, a: Name, T: nat, thread: string)
    requires StreakBound(Thread(s.table, thread), a, T) && r.sender != a
    ensures StreakBound(Thread(s.table + [r], thread), a, T)
  {
    SelectAppend(s.table, r, OnThread(thread));
    StreakAfterOther(Thread(s.table, thread), Stamp(|s.table|, r.created, r.sender, r.recipient), a, T);
  }

  // The agent's own insertion, using what the check established and interleaving kept.
  lemma OwnInsertKeepsStreak(cfg: Config, s: State, a: Name, thread: string)
    requires ValidConfig(cfg) && Traced(cfg, s) && Enabled(cfg, s, Insert(a)) && cfg.threshold > 0
    requires Guarded(cfg, s, a) && StreakBound(Thread(s.table, thread), a, cfg.threshold)
    ensures StreakBound(Thread(Apply(cfg, s, Insert(a)).table, thread), a, cfg.threshold)
  {
    var r := s.pc[a].row.(sent := Some(s.clock));
    var x := Stamp(|s.table|, r.created, r.sender, r.recipient);
    var t := Thread(s.table, thread);
    assert RunnerTraced(s, a, s.pc[a]);
    SelectAppend(s.table, r, OnThread(thread));
    SelectIsTheOrderedQuery(s.table, OnThread(thread));
    if r.thread == thread {
      if r.recipient == a {
        forall y | y in t && y.sender == a ensures y.created <= x.created {
          assert y == StampOf(s.table, y.id);
        }
        StreakAfterSelf(t, x, a, cfg.threshold);
      } else {
        StreakAfterOther(t, x, a, cfg.threshold);
      }
    }
  }

  lemma CheckGuards(cfg: Config, s: State, a: Name)
    requires Traced(cfg, s) && Enabled(cfg, s, CheckLoop(a)) && cfg.threshold > 0
    ensures Guarded(cfg, Apply(cfg, s, CheckLoop(a)), a)
  {
    var Acked(job, reply, dest) := s.pc[a];
    if dest == a && !LoopDetected(s.table, job.thread, a, dest, cfg.threshold) {
      NotDetectedMeansRoom(s.table, job.thread, a, cfg.threshold);
    }
  }

  lemma BuildGuards(cfg: Config, s: State, a: Name)
    requires Traced(cfg, s) && Enabled(cfg, s, Build(a)) && Guarded(cfg, s, a)
    ensures Guarded(cfg, Apply(cfg, s, Build(a)), a)
  {
    var CeilingPassed(job, reply, dest) := s.pc[a];
    var t := Thread(s.table, job.thread);
    SelectIsTheOrderedQuery(s.table, OnThread(job.thread));
    assert Prefix(t, s.clock) == t by {
      if t != [] {
        var last := t[|t| - 1];
        assert last in t && RowTraced(cfg, s, last.id);
      }
    }
  }

  lemma InsertIsLoopSafe(cfg: Config, s: State, b: Name, a: Name, thread: string)
    requires ValidConfig(cfg) && Traced(cfg, s) && Enabled(cfg, s, Insert(b)) && a in s.pc && cfg.threshold > 0
    requires LoopSafe(cfg, s, a, thread)
    ensures LoopSafe(cfg, Apply(cfg, s, Insert(b)), a, thread)
  {
    assert RunnerTraced(s, b, s.pc[b]);
    if a == b {
      OwnInsertKeepsStreak(cfg, s, a, thread);
    } else {
      ForeignRowIsLoopSafe(cfg, s, Apply(cfg, s, Insert(b)), s.pc[b].row.(sent := Some(s.clock)), a, thread);
    }
  }

  lemma HumanInsertIsLoopSafe(cfg: Config, s: State, k: nat, a: Name, thread: string)
    requires ValidConfig(cfg) && Traced(cfg, s) && Enabled(cfg, s, HumanInsert(k)) && a in s.pc && cfg.threshold > 0
    requires LoopSafe(cfg, s, a, thread)
    ensures LoopSafe(cfg, Apply(cfg, s, HumanInsert(k)), a, thread)
  {
    assert Draft(s, s.outbox[k]);
    ForeignRowIsLoopSafe(cfg, s, Apply(cfg, s, HumanInsert(k)), s.outbox[k].(sent := Some(s.clock)), a, thread);
  }

  lemma ForeignRowIsLoopSafe(cfg: Config, s: State, s': State, r: Row, a: Name, thread: string)
    requires a in s.pc && s'.table == s.table + [r] && a in s'.pc && s'.pc[a] == s.pc[a] && cfg.threshold > 0
    requires LoopSafe(cfg, s, a, thread) && r.sender != a
    ensures LoopSafe(cfg, s', a, thread)
  {
    GuardedAfterOther(cfg, s, s', r, a);
    StreakAfterForeignRow(s, r, a, cfg.threshold, thread);
  }

  // Receiving and processing, by whoever.
  lemma UpdateIsLoopSafe(cfg: Config, s: State, act: Action, a: Name, thread: string)
    requires Enabled(cfg, s, act) && (act.Receive? || act.Ack? || act.HumanRead?) && a in s.pc && cfg.threshold > 0
    requires LoopSafe(cfg, s, a, thread)
    ensures LoopSafe(cfg, Apply(cfg, s, act), a, thread)
  {
    var s' := Apply(cfg, s, act);
    match act
    case Receive(b) => RowUpdateIsLoopSafe(cfg, s, s', Oldest(s.table, b).value, a, thread);
    case Ack(b) => RowUpdateIsLoopSafe(cfg, s, s', s.pc[b].job.id, a, thread);
    case HumanRead(id) => RowUpdateIsLoopSafe(cfg, s, s', id, a, thread);
  }

  lemma QuietIsLoopSafe(cfg: Config, s: State, act: Action, a: Name, thread: string)
    requires Traced(cfg, s) && Enabled(cfg, s, act) && a in s.pc && cfg.threshold > 0
    requires !act.Insert? && !act.HumanInsert? && !act.Receive? && !act.Ack? && !act.HumanRead?
    requires LoopSafe(cfg, s, a, thread)
    ensures LoopSafe(cfg, Apply(cfg, s, act), a, thread)
  {
    if act == CheckLoop(a) {
      CheckGuards(cfg, s, a);
    } else if act == Build(a) {
      BuildGuards(cfg, s, a);
    }
  }

  lemma StepIsLoopSafe(cfg: Config, s: State, act: Action, a: Name, thread: string)
    requires ValidConfig(cfg) && Traced(cfg, s) && Enabled(cfg, s, act) && a in s.pc
    requires LoopSafe(cfg, s, a, thread)
    ensures a in Apply(cfg, s, act).pc && LoopSafe(cfg, Apply(cfg, s, act), a, thread)
  {
    if cfg.threshold > 0 {
      if act.Insert? {
        InsertIsLoopSafe(cfg, s, act.agent, a, thread);
      } else if act.HumanInsert? {
        HumanInsertIsLoopSafe(cfg, s, act.k, a, thread);
      } else if act.Receive? || act.Ack? || act.HumanRead? {
        UpdateIsLoopSafe(cfg, s, act, a, thread);
      } else {
        QuietIsLoopSafe(cfg, s, act, a, thread);
      }
    }
  }

  // Receiving and processing only change a row's `received_at` and `processed_at`.
  lemma RowUpdateIsLoopSafe(cfg: Config, s: State, s': State, i: nat, a: Name, thread: string)
    requires a in s.pc && a in s'.pc && i < |s.table| && cfg.threshold > 0
    requires |s'.table| == |s.table| && s'.table == s.table[i := s'.table[i]]
    requires s'.table[i] == s.table[i].(received := s'.table[i].received, processed := s'.table[i].processed)
    requires s'.pc[a] == s.pc[a] || s'.pc[a].Got? || s'.pc[a].Acked? || s'.pc[a].Idle?
    requires LoopSafe(cfg, s, a, thread)
    ensures LoopSafe(cfg, s', a, thread)
  {
    ThreadKept(s.table, i, s'.table[i], thread);
    if s'.pc[a].LoopPassed? || s'.pc[a].CeilingPassed? {
      ThreadKept(s.table, i, s'.table[i], s.pc[a].job.thread);
    } else if s'.pc[a].Built? {
      ThreadKept(s.table, i, s'.table[i], s.pc[a].row.thread);
    }
  }
}
