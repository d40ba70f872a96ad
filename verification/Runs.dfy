/** The theorems about every run of the cluster. */
module Runs {
  import opened Messages
  import opened Query
  import opened Cluster
  import opened Lineage
  import opened Tokens
  import opened Streaks
  import opened LoopBound
  import opened Chain

  ghost predicate RunTo(cfg: Config, s: State, acts: seq<Action>, s': State) {
    ValidRun(cfg, s, acts) && Exec(cfg, s, acts) == s'
  }

  // Some run from an empty table leads to s.
  ghost predicate Reachable(cfg: Config, s: State) {
    exists clock, acts :: RunTo(cfg, Start(cfg, clock), acts, s)
  }

  lemma {:induction false} RunThenRun(cfg: Config, s: State, acts: seq<Action>, more: seq<Action>)
    requires ValidRun(cfg, s, acts) && ValidRun(cfg, Exec(cfg, s, acts), more)
    ensures RunTo(cfg, s, acts + more, Exec(cfg, Exec(cfg, s, acts), more))
    decreases |acts|
  {
    if acts == [] {
      assert acts + more == more;
    } else {
      RunThenRun(cfg, Apply(cfg, s, acts[0]), acts[1..], more);
      assert (acts + more)[1..] == acts[1..] + more;
    }
  }

  lemma ReachableThrough(cfg: Config, s: State, acts: seq<Action>)
    requires Reachable(cfg, s) && ValidRun(cfg, s, acts)
    ensures Reachable(cfg, Exec(cfg, s, acts))
  {
    var clock, before :| RunTo(cfg, Start(cfg, clock), before, s);
    RunThenRun(cfg, Start(cfg, clock), before, acts);
  }

  // ---- Induction over runs ----

  // What each thread keeps, whatever happens on the others.
  ghost predicate Sound(cfg: Config, s: State, thread: string) {
    Traced(cfg, s) && Conserved(s, thread) && BelowCeiling(cfg, s, thread) && Rooted(s, thread)
  }

  lemma StartIsSound(cfg: Config, clock: int, thread: string)
    ensures Sound(cfg, Start(cfg, clock), thread)
  {
    var s := Start(cfg, clock);
    assert InFlight(s, thread) == {} && PastCeiling(s, thread) == {};
    assert Ids(s.table, Unprocessed(thread)) == {} && Ids(s.table, FromAgents(thread)) == {};
    StartIsTraced(cfg, clock);
  }

  // A new row roots its thread or continues a rooted one.
  lemma StepIsRooted(cfg: Config, s: State, act: Action, thread: string)
    requires ValidConfig(cfg) && Enabled(cfg, s, act) && Sound(cfg, s, thread)
    ensures Rooted(Apply(cfg, s, act), thread)
  {
    match act
    case Insert(a) =>
      SelectAppend(s.table, s.pc[a].row.(sent := Some(s.clock)), OnThread(thread));
      InsertCounts(cfg, s, a, thread);
      InsertNeedsSeed(cfg, s, a);
    case HumanInsert(k) =>
      SelectAppend(s.table, s.outbox[k].(sent := Some(s.clock)), OnThread(thread));
      HumanInsertCounts(cfg, s, k, thread);
    case Receive(a) =>
      ReceiveCounts(cfg, s, a, thread);
      var i := Oldest(s.table, a).value;
      ThreadKept(s.table, i, Apply(cfg, s, act).table[i], thread);
    case Ack(a) =>
      AckCounts(cfg, s, a, thread);
      var i := s.pc[a].job.id;
      ThreadKept(s.table, i, Apply(cfg, s, act).table[i], thread);
    case HumanRead(id) =>
      HumanReadCounts(cfg, s, id, thread);
      ThreadKept(s.table, id, Apply(cfg, s, act).table[id], thread);
    case _ =>
  }

  lemma InsertNeedsSeed(cfg: Config, s: State, a: Name)
    requires ValidConfig(cfg) && Traced(cfg, s) && Enabled(cfg, s, Insert(a))
    ensures s.pc[a].row.thread == s.pc[a].job.thread
    ensures Conserved(s, s.pc[a].job.thread) ==> Injected(s, s.pc[a].job.thread) >= 1
  {
    var thread := s.pc[a].job.thread;
    assert RunnerTraced(s, a, s.pc[a]);
    assert a in InFlight(s, thread);
    Subset({a}, InFlight(s, thread));
  }

  lemma {:induction false} RunIsSound(cfg: Config, s: State, acts: seq<Action>, thread: string)
    requires ValidConfig(cfg) && ValidRun(cfg, s, acts) && Sound(cfg, s, thread)
    ensures Sound(cfg, Exec(cfg, s, acts), thread)
    decreases |acts|
  {
    if acts == [] {
    } else {
      StepIsTraced(cfg, s, acts[0]);
      StepConserves(cfg, s, acts[0], thread);
      StepStaysBelowCeiling(cfg, s, acts[0], thread);
      StepIsRooted(cfg, s, acts[0], thread);
      RunIsSound(cfg, Apply(cfg, s, acts[0]), acts[1..], thread);
    }
  }

  lemma {:induction false} RunIsLoopSafe(cfg: Config, s: State, acts: seq<Action>, a: Name, thread: string)
    requires ValidConfig(cfg) && ValidRun(cfg, s, acts) && Traced(cfg, s) && a in s.pc && LoopSafe(cfg, s, a, thread)
    ensures a in Exec(cfg, s, acts).pc && LoopSafe(cfg, Exec(cfg, s, acts), a, thread)
    decreases |acts|
  {
    if acts == [] {
    } else {
      StepIsTraced(cfg, s, acts[0]);
      StepIsLoopSafe(cfg, s, acts[0], a, thread);
      RunIsLoopSafe(cfg, Apply(cfg, s, acts[0]), acts[1..], a, thread);
    }
  }

  ghost predicate ChainSound(cfg: Config, rank: Name -> nat, s: State, thread: string) {
    && Sound(cfg, s, thread) && OneSeed(cfg, rank, s, thread)
    && forall a | a in s.pc :: Directed(cfg, s, a) && LoopSafe(cfg, s, a, thread)
  }

  lemma StepIsChainSound(cfg: Config, rank: Name -> nat, s: State, act: Action, thread: string)
    requires ValidConfig(cfg) && Enabled(cfg, s, act) && cfg.threshold > 0 && Ranked(cfg, rank)
    requires ChainSound(cfg, rank, s, thread)
    ensures ChainSound(cfg, rank, Apply(cfg, s, act), thread)
  {
    var s' := Apply(cfg, s, act);
    forall a | a in s'.pc ensures Directed(cfg, s', a) && LoopSafe(cfg, s', a, thread) {
      StepIsDirected(cfg, s, act, a);
      StepIsLoopSafe(cfg, s, act, a, thread);
    }
    StepKeepsChain(cfg, rank, s, act, thread);
    StepIsTraced(cfg, s, act);
    StepConserves(cfg, s, act, thread);
    StepStaysBelowCeiling(cfg, s, act, thread);
  }

  lemma {:induction false} RunIsChainSound(cfg: Config, rank: Name -> nat, s: State, acts: seq<Action>, thread: string)
    requires ValidConfig(cfg) && ValidRun(cfg, s, acts) && cfg.threshold > 0 && Ranked(cfg, rank)
    requires ChainSound(cfg, rank, s, thread)
    ensures ChainSound(cfg, rank, Exec(cfg, s, acts), thread)
    decreases |acts|
  {
    if acts == [] {
    } else {
      StepIsChainSound(cfg, rank, s, acts[0], thread);
      RunIsChainSound(cfg, rank, Apply(cfg, s, acts[0]), acts[1..], thread);
    }
  }

  lemma ReachableIsSound(cfg: Config, s: State, thread: string)
    requires ValidConfig(cfg) && Reachable(cfg, s)
    ensures Sound(cfg, s, thread)
  {
    var clock, acts :| RunTo(cfg, Start(cfg, clock), acts, s);
    StartIsSound(cfg, clock, thread);
    RunIsSound(cfg, Start(cfg, clock), acts, thread);
  }

  // ---- The theorems ----

  // No thread, read in created_at order, ever holds more than T self-sends of one agent in a row.
  lemma SelfLoopsAreBounded(cfg: Config, s: State, a: Name, thread: string)
    requires ValidConfig(cfg) && Reachable(cfg, s) && cfg.threshold > 0 && a in cfg.agents
    ensures StreakBound(Thread(s.table, thread), a, cfg.threshold)
  {
    var clock, acts :| RunTo(cfg, Start(cfg, clock), acts, s);
    StartIsSound(cfg, clock, thread);
    RunIsLoopSafe(cfg, Start(cfg, clock), acts, a, thread);
  }

  // Messages still to be handled on a thread never outnumber the people's messages on it.
  lemma MessagesAreConserved(cfg: Config, s: State, thread: string)
    requires ValidConfig(cfg) && Reachable(cfg, s)
    ensures Live(s, thread) <= Injected(s, thread)
  {
    ReachableIsSound(cfg, s, thread);
  }

  // Agents never send more than M - 1 rows on a thread, counting those about to be inserted: the
  // check is made against a count that includes a person's message for every runner about to send.
  // The total passes M only when several people's messages share the thread.
  lemma CeilingHolds(cfg: Config, s: State, thread: string)
    requires ValidConfig(cfg) && Reachable(cfg, s) && cfg.ceiling > 0
    ensures Sent(s, thread) + |PastCeiling(s, thread)| <= cfg.ceiling - 1
    ensures Count(s.table, thread) <= cfg.ceiling - 1 + Injected(s, thread)
    ensures Injected(s, thread) <= 1 ==> Count(s.table, thread) <= cfg.ceiling
  {
    ReachableIsSound(cfg, s, thread);
    Split(s, thread);
  }

  // Rows form chains: each agent's row is the one reply to an older row of its inbox, on the same
  // thread, under the same subject and with the text the agent answered that row with.
  lemma EveryReplyHasOneParent(cfg: Config, s: State, i: nat)
    requires ValidConfig(cfg) && Reachable(cfg, s) && i < |s.table|
    ensures var r := s.table[i];
            && (r.parent.None? <==> r.sender == HUMAN)
            && (r.parent.Some? ==>
                  var p := r.parent.value;
                  && p < i
                  && s.table[p].recipient == r.sender && s.table[p].thread == r.thread
                  && s.table[p].subject == r.subject
                  && s.table[p].processed.Some? && s.table[p].created <= r.created
                  && p in s.answered && r.body == s.answered[p] && r.body != ""
                  && forall j: nat | j < |s.table| && j != i :: s.table[j].parent != r.parent)
  {
    ReachableIsSound(cfg, s, "");
    assert RowTraced(cfg, s, i);
    forall j: nat | j < |s.table| && j != i && s.table[i].parent.Some? ensures s.table[j].parent != s.table[i].parent {
      assert s.table[j].parent.Some? || s.table[j].parent.None?;
    }
  }

  // An agent's row is processed only after a non-empty reply to that very row.
  lemma ProcessedMeansAnswered(cfg: Config, s: State, i: nat)
    requires ValidConfig(cfg) && Reachable(cfg, s) && i < |s.table|
    requires s.table[i].processed.Some? && s.table[i].recipient != HUMAN
    ensures i in s.answered && s.answered[i] != ""
  {
    ReachableIsSound(cfg, s, "");
    assert RowTraced(cfg, s, i);
  }

  // If every destination but the agent itself ranks lower, one message to an agent of rank R leaves
  // at most 1 + R * (T + 1) rows on its thread.
  lemma ConversationIsBounded(cfg: Config, rank: Name -> nat, s: State, thread: string)
    requires ValidConfig(cfg) && Reachable(cfg, s) && cfg.threshold > 0 && Ranked(cfg, rank)
    requires Injected(s, thread) == 1
    ensures Thread(s.table, thread) != [] && Thread(s.table, thread)[0].sender == HUMAN
    ensures Count(s.table, thread) <= 1 + rank(Thread(s.table, thread)[0].recipient) * (cfg.threshold + 1)
  {
    var clock, acts :| RunTo(cfg, Start(cfg, clock), acts, s);
    StartIsSound(cfg, clock, thread);
    RunIsChainSound(cfg, rank, Start(cfg, clock), acts, thread);
    SelectCounts(s.table, OnThread(thread));
    Split(s, thread);
    forall a | a in cfg.agents ensures StreakBound(Thread(s.table, thread), a, cfg.threshold) {
      assert a in s.pc && LoopSafe(cfg, s, a, thread);
    }
    BudgetBoundsLength(cfg, rank, Thread(s.table, thread));
  }
}
