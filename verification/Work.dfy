/** Bounds on the total work of a run, and what a run does to a row once it is in the table. */
module Work {
  import opened Messages
  import opened Query
  import opened Cluster
  import opened Lineage
  import opened Tokens
  import opened Runs

  // ---- At-least-once delivery ----

  // Rows are never removed or rewritten: only `received_at` and `processed_at` change, and a
  // processed row stays processed.
  ghost predicate Extends(rows: seq<Row>, rows': seq<Row>) {
    && |rows| <= |rows'|
    && forall i | 0 <= i < |rows| ::
         && rows'[i] == rows[i].(received := rows'[i].received, processed := rows'[i].processed)
         && (rows[i].processed.Some? ==> rows'[i].processed.Some?)
  }

  // The action acknowledges row i after a non-empty reply to it.
  ghost predicate Acknowledges(s: State, act: Action, i: nat) {
    act.Ack? && act.agent in s.pc && s.pc[act.agent].Answered? && s.pc[act.agent].job.id == i
      && s.pc[act.agent].reply != ""
  }

  lemma StepExtends(cfg: Config, s: State, act: Action)
    requires Enabled(cfg, s, act)
    ensures Extends(s.table, Apply(cfg, s, act).table)
  {
  }

  // Nothing but the acknowledgement of its own runner takes a row out of an agent's inbox.
  lemma OnlyAckProcesses(cfg: Config, s: State, act: Action, i: nat)
    requires ValidConfig(cfg) && Traced(cfg, s) && Enabled(cfg, s, act) && i < |s.table|
    requires s.table[i].processed.None? && s.table[i].recipient != HUMAN
    ensures Apply(cfg, s, act).table[i].processed.Some? <==> Acknowledges(s, act, i)
    ensures Acknowledges(s, act, i) ==> act.agent == s.table[i].recipient
  {
    if act.Ack? {
      assert RunnerTraced(s, act.agent, s.pc[act.agent]);
    }
  }

  ghost predicate Acknowledged(cfg: Config, s: State, acts: seq<Action>, i: nat)
    requires ValidRun(cfg, s, acts)
    decreases |acts|
  {
    acts != [] && (Acknowledges(s, acts[0], i) || Acknowledged(cfg, Apply(cfg, s, acts[0]), acts[1..], i))
  }

  // Over a whole run, whatever crashes, empty replies and exhausted retries it contains: a pending
  // row leaves its agent's queue exactly if it was acknowledged, and until then it can be received.
  lemma {:induction false} PendingUntilAcknowledged(cfg: Config, s: State, acts: seq<Action>, i: nat)
    requires ValidConfig(cfg) && Traced(cfg, s) && ValidRun(cfg, s, acts) && i < |s.table|
    requires s.table[i].processed.None? && s.table[i].recipient != HUMAN
    ensures Extends(s.table, Exec(cfg, s, acts).table)
    ensures Exec(cfg, s, acts).table[i].processed.Some? <==> Acknowledged(cfg, s, acts, i)
    ensures !Acknowledged(cfg, s, acts, i) ==>
              exists x :: x in Pending(Exec(cfg, s, acts).table, s.table[i].recipient) && x.id == i
    decreases |acts|
  {
    if acts == [] {
      PendingRowIsQueued(s.table, i);
    } else {
      var s1 := Apply(cfg, s, acts[0]);
      StepExtends(cfg, s, acts[0]);
      OnlyAckProcesses(cfg, s, acts[0], i);
      StepIsTraced(cfg, s, acts[0]);
      if s1.table[i].processed.None? {
        PendingUntilAcknowledged(cfg, s1, acts[1..], i);
      } else {
        RunExtends(cfg, s1, acts[1..]);
      }
    }
  }

  lemma PendingRowIsQueued(rows: seq<Row>, i: nat)
    requires i < |rows| && rows[i].processed.None?
    ensures StampOf(rows, i) in Pending(rows, rows[i].recipient)
  {
    SelectIsTheOrderedQuery(rows, Inbox(rows[i].recipient));
    assert Inbox(rows[i].recipient)(rows[i]);
  }

  // A crash may come at any time; one before the acknowledgement leaves the message to be received
  // again, and no crash touches the table.
  lemma CrashLosesNoMessage(cfg: Config, s: State, a: Name)
    requires ValidConfig(cfg) && Traced(cfg, s) && a in cfg.agents
    ensures Enabled(cfg, s, Crash(a))
    ensures var s' := Apply(cfg, s, Crash(a));
            && s'.table == s.table && s'.pc == s.pc[a := Idle] && s'.outbox == s.outbox
            && (s.pc[a].Got? || s.pc[a].Answered? ==>
                  && Enabled(cfg, s', Receive(a))
                  && exists x :: x in Pending(s'.table, a) && x.id == s.pc[a].job.id)
  {
    assert RunnerTraced(s, a, s.pc[a]);
    if s.pc[a].Got? || s.pc[a].Answered? {
      var id := s.pc[a].job.id;
      PendingRowIsQueued(s.table, id);
      OldestIsTheOldest(s.table, a);
      assert Inbox(a)(s.table[id]);
      assert StampOf(s.table, id).id == id;
    }
  }

  lemma {:induction false} RunExtends(cfg: Config, s: State, acts: seq<Action>)
    requires ValidRun(cfg, s, acts)
    ensures Extends(s.table, Exec(cfg, s, acts).table)
    decreases |acts|
  {
    if acts == [] {
    } else {
      StepExtends(cfg, s, acts[0]);
      RunExtends(cfg, Apply(cfg, s, acts[0]), acts[1..]);
    }
  }

  // ---- Total work under a ceiling ----

  function ByHuman(): Row -> bool { (r: Row) => r.sender == HUMAN }

  function ByAgentsOn(threads: set<string>): Row -> bool {
    (r: Row) => r.sender != HUMAN && r.thread in threads
  }

  function HumanThreads(rows: seq<Row>): set<string> {
    set i: nat | i < |rows| && rows[i].sender == HUMAN :: rows[i].thread
  }

  lemma SplitThreads(rows: seq<Row>, threads: set<string>, t: string)
    requires t in threads
    ensures Ids(rows, ByAgentsOn(threads)) == Ids(rows, ByAgentsOn(threads - {t})) + Ids(rows, FromAgents(t))
  {
  }

  lemma UnionSize(s: set<nat>, t: set<nat>)
    ensures |s + t| <= |s| + |t|
  {
    assert s + t == s + (t - s);
    Subset(t - s, t);
  }

  lemma AddThread(rows: seq<Row>, threads: set<string>, t: string)
    requires t in threads
    ensures |Ids(rows, ByAgentsOn(threads))| <= |Ids(rows, ByAgentsOn(threads - {t}))| + |Ids(rows, FromAgents(t))|
  {
    SplitThreads(rows, threads, t);
    UnionSize(Ids(rows, ByAgentsOn(threads - {t})), Ids(rows, FromAgents(t)));
  }

  lemma OneMore(n: nat, bound: nat)
    ensures (n + 1) * bound == n * bound + bound
  {
  }

  // |threads| times the bound for one thread.
  lemma {:induction false} SumOverThreads(rows: seq<Row>, threads: set<string>, bound: nat)
    requires forall t | t in threads :: |Ids(rows, FromAgents(t))| <= bound
    ensures |Ids(rows, ByAgentsOn(threads))| <= |threads| * bound
    decreases |threads|
  {
    if threads == {} {
      assert Ids(rows, ByAgentsOn(threads)) == {};
    } else {
      var t :| t in threads;
      var rest := threads - {t};
      AddThread(rows, threads, t);
      SumOverThreads(rows, rest, bound);
      OneMore(|rest|, bound);
    }
  }

  lemma HumanThreadsAppend(rows: seq<Row>, r: Row)
    ensures HumanThreads(rows + [r]) == HumanThreads(rows) + (if r.sender == HUMAN then {r.thread} else {})
  {
    var after := rows + [r];
    assert after[|rows|] == r;
    forall t | t in HumanThreads(rows) ensures t in HumanThreads(after) {
      var i: nat :| i < |rows| && rows[i].sender == HUMAN && rows[i].thread == t;
      assert after[i] == rows[i];
    }
    forall t | t in HumanThreads(after) ensures t in HumanThreads(rows) || (r.sender == HUMAN && t == r.thread) {
      var i: nat :| i < |after| && after[i].sender == HUMAN && after[i].thread == t;
      if i < |rows| { assert after[i] == rows[i]; }
    }
  }

  lemma OneMoreMember(s: set<string>, t: string)
    ensures |s + {t}| <= |s| + 1
  {
    if t in s { assert s + {t} == s; }
  }

  lemma {:induction false} ThreadsOfHumans(rows: seq<Row>)
    ensures |HumanThreads(rows)| <= |Ids(rows, ByHuman())|
  {
    if rows == [] {
      assert HumanThreads(rows) == {};
    } else {
      var init, r := rows[..|rows| - 1], rows[|rows| - 1];
      ThreadsOfHumans(init);
      HumanThreadsAppend(init, r);
      OneMoreMember(HumanThreads(init), r.thread);
      IdsAppend(init, r, ByHuman());
      assert rows == init + [r];
    }
  }

  lemma Times(a: nat, b: nat, k: nat)
    requires a <= b
    ensures a * k <= b * k
  {
    assert (b - a) * k >= 0;
  }

  lemma Product(h: nat, threads: nat, m: nat)
    requires threads <= h && m > 0
    ensures threads * (m - 1) + h <= h * m
  {
    var k := m - 1;
    Times(threads, h, k);
    assert h * (k + 1) == h * k + h;
  }

  lemma {:induction false} AllIds(rows: seq<Row>, threads: set<string>)
    requires forall i | 0 <= i < |rows| && rows[i].sender != HUMAN :: rows[i].thread in threads
    ensures |rows| == |Ids(rows, ByHuman())| + |Ids(rows, ByAgentsOn(threads))|
  {
    if rows == [] {
    } else {
      var last := |rows| - 1;
      AllIds(rows[..last], threads);
      assert rows == rows[..last] + [rows[last]];
      IdsAppend(rows[..last], rows[last], ByHuman());
      IdsAppend(rows[..last], rows[last], ByAgentsOn(threads));
    }
  }

  // With a ceiling M, a cluster that was sent H human messages on some number of threads holds at
  // most M - 1 rows of agents for each of these threads, hence at most H * M rows in all, on any
  // routing graph, under every interleaving and with any crashes.
  lemma TableIsBounded(cfg: Config, s: State)
    requires ValidConfig(cfg) && Reachable(cfg, s) && cfg.ceiling > 0
    ensures |s.table| <= |HumanThreads(s.table)| * (cfg.ceiling - 1) + |Ids(s.table, ByHuman())|
    ensures |s.table| <= |Ids(s.table, ByHuman())| * cfg.ceiling
  {
    var threads := HumanThreads(s.table);
    forall t | t in threads ensures |Ids(s.table, FromAgents(t))| <= cfg.ceiling - 1 {
      CeilingHolds(cfg, s, t);
    }
    forall i: nat | i < |s.table| && s.table[i].sender != HUMAN ensures s.table[i].thread in threads {
      ThreadIsHuman(cfg, s, i);
    }
    SumOverThreads(s.table, threads, cfg.ceiling - 1);
    ThreadsOfHumans(s.table);
    AllIds(s.table, threads);
    Product(|Ids(s.table, ByHuman())|, |threads|, cfg.ceiling);
  }

  lemma ThreadIsHuman(cfg: Config, s: State, i: nat)
    requires ValidConfig(cfg) && Reachable(cfg, s) && i < |s.table|
    ensures s.table[i].thread in HumanThreads(s.table)
    decreases i
  {
    EveryReplyHasOneParent(cfg, s, i);
    if s.table[i].sender != HUMAN {
      ThreadIsHuman(cfg, s, s.table[i].parent.value);
    }
  }

  // ---- Termination ----

  function Acks(acts: seq<Action>): nat {
    if acts == [] then 0 else Tally(acts[0].Ack?) + Acks(acts[1..])
  }

  function Done(): Row -> bool { (r: Row) => r.processed.Some? }

  lemma StepDone(cfg: Config, s: State, act: Action)
    requires ValidConfig(cfg) && Traced(cfg, s) && Enabled(cfg, s, act)
    ensures |Ids(Apply(cfg, s, act).table, Done())| >= |Ids(s.table, Done())| + Tally(act.Ack?)
  {
    var s' := Apply(cfg, s, act);
    var before := Ids(s.table, Done());
    var after := Ids(s'.table, Done());
    StepExtends(cfg, s, act);
    if act.Ack? {
      var id := s.pc[act.agent].job.id;
      assert RunnerTraced(s, act.agent, s.pc[act.agent]);
      assert id !in before && before + {id} <= after;
      Subset(before + {id}, after);
    } else {
      Subset(before, after);
    }
  }

  lemma {:induction false} AcksAreDone(cfg: Config, s: State, acts: seq<Action>)
    requires ValidConfig(cfg) && Traced(cfg, s) && ValidRun(cfg, s, acts)
    ensures Acks(acts) + |Ids(s.table, Done())| <= |Ids(Exec(cfg, s, acts).table, Done())|
    decreases |acts|
  {
    if acts == [] {
    } else {
      StepDone(cfg, s, acts[0]);
      StepIsTraced(cfg, s, acts[0]);
      AcksAreDone(cfg, Apply(cfg, s, acts[0]), acts[1..]);
    }
  }

  lemma {:induction false} AtMostAll(rows: seq<Row>, p: Row -> bool)
    ensures |Ids(rows, p)| <= |rows|
  {
    if rows == [] {
    } else {
      var last := |rows| - 1;
      AtMostAll(rows[..last], p);
      assert rows == rows[..last] + [rows[last]];
      IdsAppend(rows[..last], rows[last], p);
    }
  }

  function HumanInserts(acts: seq<Action>): nat {
    if acts == [] then 0 else Tally(acts[0].HumanInsert?) + HumanInserts(acts[1..])
  }

  lemma StepHumans(cfg: Config, s: State, act: Action)
    requires ValidConfig(cfg) && Traced(cfg, s) && Enabled(cfg, s, act)
    ensures |Ids(Apply(cfg, s, act).table, ByHuman())| == |Ids(s.table, ByHuman())| + Tally(act.HumanInsert?)
  {
    var s' := Apply(cfg, s, act);
    match act
    case Insert(a) =>
      assert RunnerTraced(s, a, s.pc[a]);
      IdsAppend(s.table, s.pc[a].row.(sent := Some(s.clock)), ByHuman());
    case HumanInsert(k) =>
      assert Draft(s, s.outbox[k]);
      IdsAppend(s.table, s.outbox[k].(sent := Some(s.clock)), ByHuman());
    case Receive(a) => IdsKept(s.table, Oldest(s.table, a).value, s'.table[Oldest(s.table, a).value], ByHuman());
    case Ack(a) => IdsKept(s.table, s.pc[a].job.id, s'.table[s.pc[a].job.id], ByHuman());
    case HumanRead(id) => IdsKept(s.table, id, s'.table[id], ByHuman());
    case _ =>
  }

  lemma {:induction false} RunHumans(cfg: Config, s: State, acts: seq<Action>)
    requires ValidConfig(cfg) && Traced(cfg, s) && ValidRun(cfg, s, acts)
    ensures |Ids(Exec(cfg, s, acts).table, ByHuman())| == |Ids(s.table, ByHuman())| + HumanInserts(acts)
    decreases |acts|
  {
    if acts == [] {
    } else {
      StepHumans(cfg, s, acts[0]);
      StepIsTraced(cfg, s, acts[0]);
      RunHumans(cfg, Apply(cfg, s, acts[0]), acts[1..]);
    }
  }

  // Without new human messages, no new threads with human messages.
  lemma SameHumanThreads(cfg: Config, s: State, acts: seq<Action>)
    requires ValidConfig(cfg) && Traced(cfg, s) && ValidRun(cfg, s, acts) && HumanInserts(acts) == 0
    ensures HumanThreads(Exec(cfg, s, acts).table) == HumanThreads(s.table)
  {
    var rows, rows' := s.table, Exec(cfg, s, acts).table;
    RunExtends(cfg, s, acts);
    RunHumans(cfg, s, acts);
    Whole(Ids(rows, ByHuman()), Ids(rows', ByHuman()));
    forall t ensures t in HumanThreads(rows) <==> t in HumanThreads(rows') {
      if t in HumanThreads(rows) {
        var i: nat :| i < |rows| && rows[i].sender == HUMAN && rows[i].thread == t;
        assert rows'[i].sender == HUMAN && rows'[i].thread == t;
      }
      if t in HumanThreads(rows') {
        var i: nat :| i < |rows'| && rows'[i].sender == HUMAN && rows'[i].thread == t;
        assert i in Ids(rows', ByHuman());
      }
    }
  }

  lemma Whole(s: set<nat>, t: set<nat>)
    requires s <= t && |s| == |t|
    ensures s == t
  {
    assert t == s + (t - s);
  }

  // What is processed at the end was processed before, or acknowledged on the way.
  lemma DoneAtTheEnd(cfg: Config, s: State, acts: seq<Action>)
    requires ValidConfig(cfg) && Reachable(cfg, s) && ValidRun(cfg, s, acts)
    ensures Reachable(cfg, Exec(cfg, s, acts)) && Traced(cfg, s)
    ensures Acks(acts) + |Ids(s.table, Done())| <= |Exec(cfg, s, acts).table|
    ensures |Ids(Exec(cfg, s, acts).table, ByHuman())| == |Ids(s.table, ByHuman())| + HumanInserts(acts)
  {
    ReachableIsSound(cfg, s, "");
    AcksAreDone(cfg, s, acts);
    RunHumans(cfg, s, acts);
    ReachableThrough(cfg, s, acts);
    AtMostAll(Exec(cfg, s, acts).table, Done());
  }

  // From any reachable state and under every interleaving, a run acknowledges at most M - 1 messages
  // for each thread people have written to, and one for each of their messages, less those already
  // processed: without new human input the cluster falls silent.
  lemma ClusterFallsSilent(cfg: Config, s: State, acts: seq<Action>)
    requires ValidConfig(cfg) && Reachable(cfg, s) && ValidRun(cfg, s, acts) && cfg.ceiling > 0
    ensures Acks(acts) + |Ids(s.table, Done())|
              <= |HumanThreads(Exec(cfg, s, acts).table)| * (cfg.ceiling - 1)
                 + |Ids(s.table, ByHuman())| + HumanInserts(acts)
    ensures Acks(acts) + |Ids(s.table, Done())| <= (|Ids(s.table, ByHuman())| + HumanInserts(acts)) * cfg.ceiling
    ensures HumanInserts(acts) == 0 ==> HumanThreads(Exec(cfg, s, acts).table) == HumanThreads(s.table)
  {
    DoneAtTheEnd(cfg, s, acts);
    TableIsBounded(cfg, Exec(cfg, s, acts));
    if HumanInserts(acts) == 0 {
      SameHumanThreads(cfg, s, acts);
    }
  }
}
