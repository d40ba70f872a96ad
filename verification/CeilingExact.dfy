/** How exact the ceiling is. `Runs.CeilingHolds` bounds a thread with H human messages by M - 1 + H;
    here is, for every M and every H, a cluster and a run that get there: one agent talks to itself up
    to the ceiling, and people write while its last message is on the way. An agent can send onto a
    thread that is already full exactly if M and H are more than 1. */
module CeilingExact {
  import opened Messages
  import opened Query
  import opened Cluster
  import opened Tokens
  import opened Runs
  import opened Refinement
  import opened Monologue

  // People add k messages to the thread, whatever the agent is doing.
  ghost predicate Joined(s: State, s': State, k: nat) {
    && s'.pc == s.pc && s'.outbox == [] && s'.clock == s.clock && |s'.table| == |s.table| + k && s.table <= s'.table
    && (forall i | |s.table| <= i < |s'.table| :: s'.table[i].thread == THREAD && s'.table[i].subject == "")
    && Injected(s', THREAD) == Injected(s, THREAD) + k
  }

  lemma {:induction false} PeopleWrite(m: nat, s: State, k: nat)
    requires Leads(Alone(0, m), Start(Alone(0, m), 0), s) && s.outbox == []
    ensures exists s' :: Leads(Alone(0, m), Start(Alone(0, m), 0), s') && Joined(s, s', k)
  {
    if k == 0 {
      assert Joined(s, s, 0);
    } else {
      PeopleWrite(m, s, k - 1);
      var s1 :| Leads(Alone(0, m), Start(Alone(0, m), 0), s1) && Joined(s, s1, k - 1);
      OneWrites(m, s, s1, k - 1);
    }
  }

  lemma OneWrites(m: nat, s: State, s1: State, k: nat)
    requires Leads(Alone(0, m), Start(Alone(0, m), 0), s1) && Joined(s, s1, k)
    ensures exists s' :: Leads(Alone(0, m), Start(Alone(0, m), 0), s') && Joined(s, s', k + 1)
  {
    var cfg := Alone(0, m);
    LeadsOn(cfg, Start(cfg, 0), s1, HumanCompose([HUMAN], "", "more", THREAD));
    var s2 := Apply(cfg, s1, HumanCompose([HUMAN], "", "more", THREAD));
    assert s2.outbox == [Row(HUMAN, HUMAN, "", "more", THREAD, None, s1.clock, None, None, None)];
    LeadsOn(cfg, Start(cfg, 0), s2, HumanInsert(0));
    OneMoreJoins(s, s1, Apply(cfg, s2, HumanInsert(0)), k);
  }

  lemma OneMoreJoins(s: State, s1: State, s': State, k: nat)
    requires Joined(s, s1, k) && s'.pc == s1.pc && s'.outbox == [] && s'.clock == s1.clock
    requires s'.table
          == s1.table + [Row(HUMAN, HUMAN, "", "more", THREAD, None, s1.clock, Some(s1.clock), None, None)]
    ensures Joined(s, s', k + 1)
  {
    IdsAppend(s1.table, s'.table[|s1.table|], FromHuman(THREAD));
  }

  lemma LastAnswered(m: nat)
    requires m > 1
    ensures exists s :: Leads(Alone(0, m), Start(Alone(0, m), 0), s) && OnItsWay(s, m - 1) && |s.table| == m - 1
  {
    Grow(0, m, m - 1);
    var s :| Leads(Alone(0, m), Start(Alone(0, m), 0), s) && Grown(s, m - 1);
    AnswerPasses(0, m, s, m - 1);
  }

  lemma StillOnItsWay(s: State, s': State, n: nat, k: nat)
    requires OnItsWay(s, n) && Joined(s, s', k)
    ensures OnItsWay(s', n)
  {
    forall j: nat | j < |s.table| ensures s'.table[j] == s.table[j] {
    }
  }

  // h - 1 more people write while the agent's last answer is on its way.
  lemma ThreadFillsUp(m: nat, h: nat)
    requires m > 1 && h > 0
    ensures exists s :: Leads(Alone(0, m), Start(Alone(0, m), 0), s) && OnItsWay(s, m - 1) && |s.table| == m - 1 + h - 1
  {
    LastAnswered(m);
    var s :| Leads(Alone(0, m), Start(Alone(0, m), 0), s) && OnItsWay(s, m - 1) && |s.table| == m - 1;
    PeopleWrite(m, s, h - 1);
    var s1 :| Leads(Alone(0, m), Start(Alone(0, m), 0), s1) && Joined(s, s1, h - 1);
    StillOnItsWay(s, s1, m - 1, h - 1);
  }

  lemma PeopleAlone(h: nat)
    requires h > 0
    ensures exists s :: Reachable(Alone(0, 1), s) && Injected(s, THREAD) == h && Count(s.table, THREAD) == h
  {
    Grow(0, 1, 1);
    var s :| Leads(Alone(0, 1), Start(Alone(0, 1), 0), s) && Grown(s, 1);
    PeopleWrite(1, s, h - 1);
    var s1 :| Leads(Alone(0, 1), Start(Alone(0, 1), 0), s1) && Joined(s, s1, h - 1);
    AllOnThread(s1.table, THREAD);
    LeadsIsReachable(0, 1, s1);
  }

  // The bound M - 1 + H is reached.
  lemma BoundIsReached(m: nat, h: nat)
    requires m > 0 && h > 0
    ensures exists s :: Reachable(Alone(0, m), s) && Injected(s, THREAD) == h && Count(s.table, THREAD) == m - 1 + h
  {
    if m == 1 {
      PeopleAlone(h);
    } else {
      ThreadFillsUp(m, h);
      var s :| Leads(Alone(0, m), Start(Alone(0, m), 0), s) && OnItsWay(s, m - 1) && |s.table| == m - 1 + h - 1;
      LastOneLands(m, h, s);
    }
  }

  lemma LastOneLands(m: nat, h: nat, s: State)
    requires m > 1 && h > 0 && Leads(Alone(0, m), Start(Alone(0, m), 0), s)
    requires OnItsWay(s, m - 1) && |s.table| == m - 1 + h - 1
    ensures exists s' :: Reachable(Alone(0, m), s') && Injected(s', THREAD) == h && Count(s'.table, THREAD) == m - 1 + h
  {
    InsertIt(0, m, s, m - 1);
    var s' :| Leads(Alone(0, m), Start(Alone(0, m), 0), s') && s'.table == s.table + [s.pc[A].row.(sent := Some(0))]
              && s'.pc == map[A := Idle] && s'.outbox == [] && s'.clock == 0
              && Injected(s', THREAD) == Injected(s, THREAD);
    AllOnThread(s'.table, THREAD);
    LeadsIsReachable(0, m, s');
  }

  ghost predicate WithinCeiling(cfg: Config, s: State, thread: string, m: nat, h: nat) {
    ValidConfig(cfg) && cfg.ceiling == m && Reachable(cfg, s) && Injected(s, thread) == h ==>
      Count(s.table, thread) <= m
  }

  // People's own messages included, no thread with h of them ever passes a ceiling of m, in any
  // cluster and any run, exactly if h is 1.
  lemma CeilingIsExactForOneSeed(m: nat, h: nat)
    requires m > 0 && h > 0
    ensures (forall cfg, s, thread :: WithinCeiling(cfg, s, thread, m, h)) <==> h == 1
  {
    if h == 1 {
      forall cfg, s, thread ensures WithinCeiling(cfg, s, thread, m, h) {
        if ValidConfig(cfg) && cfg.ceiling == m && Reachable(cfg, s) {
          CeilingHolds(cfg, s, thread);
        }
      }
    } else {
      BoundIsReached(m, h);
      var s :| Reachable(Alone(0, m), s) && Injected(s, THREAD) == h && Count(s.table, THREAD) == m - 1 + h;
      assert !WithinCeiling(Alone(0, m), s, THREAD, m, h);
    }
  }

  // ---- Dispatching past the ceiling ----

  // An agent is about to insert on a thread that already holds M messages, h of them from people.
  ghost predicate DispatchesPast(cfg: Config, s: State, a: Name, m: nat, h: nat) {
    && ValidConfig(cfg) && cfg.ceiling == m && Reachable(cfg, s) && Enabled(cfg, s, Insert(a))
    && Injected(s, s.pc[a].row.thread) == h && Count(s.table, s.pc[a].row.thread) >= m
  }

  // The runner itself is one of those the count left room for.
  lemma DispatchNeedsTwo(cfg: Config, s: State, a: Name, m: nat, h: nat)
    requires m > 0 && DispatchesPast(cfg, s, a, m, h)
    ensures m > 1 && h > 1
  {
    var thread := s.pc[a].row.thread;
    CeilingHolds(cfg, s, thread);
    ReachableIsSound(cfg, s, thread);
    InsertNeedsSeed(cfg, s, a);
    Subset({a}, PastCeiling(s, thread));
    Split(s, thread);
  }

  lemma DispatchHappens(m: nat, h: nat)
    requires m > 1 && h > 1
    ensures exists s :: DispatchesPast(Alone(0, m), s, A, m, h)
  {
    ThreadFillsUp(m, h);
    var s :| Leads(Alone(0, m), Start(Alone(0, m), 0), s) && OnItsWay(s, m - 1) && |s.table| == m - 1 + h - 1;
    AllOnThread(s.table, THREAD);
    LeadsIsReachable(0, m, s);
    assert DispatchesPast(Alone(0, m), s, A, m, h);
  }

  // Some cluster with ceiling m can dispatch onto a full thread with h human messages, exactly if
  // both m and h are more than 1.
  lemma DispatchPassesCeilingWhen(m: nat, h: nat)
    requires m > 0
    ensures (exists cfg, s, a :: DispatchesPast(cfg, s, a, m, h)) <==> m > 1 && h > 1
  {
    if cfg, s, a :| DispatchesPast(cfg, s, a, m, h) {
      DispatchNeedsTwo(cfg, s, a, m, h);
    }
    if m > 1 && h > 1 {
      DispatchHappens(m, h);
    }
  }
}
