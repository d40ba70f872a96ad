/** The ceiling counts all messages of a thread, but with two human messages on one thread it can be
    passed: both runners count before either inserts. `Runs.CeilingHolds` says by how much at most;
    here is a run that gets there. */
module Overshoot {
  import opened Messages
  import opened Query
  import opened Cluster
  import opened Runs
  import opened Refinement
  import opened Monologue

  const B: Name := "b"

  // Two agents that answer people, the self-loop check off, a ceiling of three messages.
  const TWO_AGENTS := Config(map[A := AgentConfig(Some(HUMAN), {}), B := AgentConfig(Some(HUMAN), {})], 0, 3)

  lemma TwoSeeds(s: State)
    requires s == State([Seed(A), Seed(B)], Start(TWO_AGENTS, 0).pc, [], 0, map[])
    ensures Leads(TWO_AGENTS, Start(TWO_AGENTS, 0), s)
  {
    var s0 := Start(TWO_AGENTS, 0);
    LeadsToItself(TWO_AGENTS, s0);
    LeadsOn(TWO_AGENTS, s0, s0, HumanCompose([A, B], "", "go", THREAD));
    var s1 := Apply(TWO_AGENTS, s0, HumanCompose([A, B], "", "go", THREAD));
    assert s1.outbox == [Seed(A).(sent := None), Seed(B).(sent := None)];
    LeadsOn(TWO_AGENTS, s0, s1, HumanInsert(0));
    var s2 := Apply(TWO_AGENTS, s1, HumanInsert(0));
    assert s2.outbox == [Seed(B).(sent := None)];
    LeadsOn(TWO_AGENTS, s0, s2, HumanInsert(0));
    SameState(Apply(TWO_AGENTS, s2, HumanInsert(0)), s);
  }

  function Waiting(a: Name, i: nat): Pc {
    Built(Job(i, THREAD, ""), Row(a, HUMAN, "", REPLY, THREAD, Some(i), 0, None, None, None))
  }

  // An agent gets past the ceiling while the thread still has room for one message.
  lemma AgentPasses(s0: State, s: State, a: Name, i: nat)
    requires Leads(TWO_AGENTS, s0, s) && a in TWO_AGENTS.agents && a in s.pc && s.pc[a].Idle? && s.clock == 0
    requires |s.table| == 2 && forall r | r in s.table :: r.thread == THREAD && r.subject == ""
    requires i < 2 && forall j: nat | j < 2 :: Inbox(a)(s.table[j]) <==> j == i
    ensures exists s' :: Leads(TWO_AGENTS, s0, s') && s'.pc == s.pc[a := Waiting(a, i)] && s'.clock == 0
              && |s'.table| == 2 && s'.table[1 - i] == s.table[1 - i]
              && s'.table[i] == s.table[i].(received := Some(0), processed := Some(0))
  {
    OldestIsTheOldest(s.table, a);
    assert Inbox(a)(s.table[i]);
    LeadsOn(TWO_AGENTS, s0, s, Receive(a));
    var s1 := Apply(TWO_AGENTS, s, Receive(a));
    AnswerPart(TWO_AGENTS, s0, s1, a, REPLY, None, 0);
    var s2 := State(s1.table[i := s1.table[i].(processed := Some(0))],
        s1.pc[a := Acked(Job(i, THREAD, ""), REPLY, HUMAN)],
                    s1.outbox, 0, s1.answered[i := REPLY]);
    AllOnThread(s2.table, THREAD);
    CheckPart(TWO_AGENTS, s0, s2, a);
    var s3 := With(s2, a, CeilingPassed(Job(i, THREAD, ""), REPLY, HUMAN));
    LeadsOn(TWO_AGENTS, s0, s3, Build(a));
    assert Apply(TWO_AGENTS, s3, Build(a)).pc == s.pc[a := Waiting(a, i)];
  }

  // Both insert what they have built.
  lemma BothInsert(s0: State, s: State)
    requires Leads(TWO_AGENTS, s0, s) && A in s.pc && B in s.pc && s.pc[A] == Waiting(A, 0) && s.pc[B] == Waiting(B, 1)
    requires |s.table| == 2 && forall r | r in s.table :: r.thread == THREAD
    ensures exists s' :: Leads(TWO_AGENTS, s0, s') && Count(s'.table, THREAD) == 4
  {
    LeadsOn(TWO_AGENTS, s0, s, Insert(A));
    var s1 := Apply(TWO_AGENTS, s, Insert(A));
    LeadsOn(TWO_AGENTS, s0, s1, Insert(B));
    AllOnThread(Apply(TWO_AGENTS, s1, Insert(B)).table, THREAD);
  }

  // Two seeds, the first of which A has answered.
  ghost predicate OneWaits(s: State) {
    && s.pc == map[A := Waiting(A, 0), B := Idle] && s.clock == 0 && |s.table| == 2
    && s.table[0] == Seed(A).(received := Some(0), processed := Some(0)) && s.table[1] == Seed(B)
  }

  ghost predicate BothWait(s: State) {
    && s.pc == map[A := Waiting(A, 0), B := Waiting(B, 1)] && s.clock == 0 && |s.table| == 2
    && forall r | r in s.table :: r.thread == THREAD
  }

  lemma FirstPasses()
    ensures exists s :: Leads(TWO_AGENTS, Start(TWO_AGENTS, 0), s) && OneWaits(s)
  {
    var s0 := Start(TWO_AGENTS, 0);
    var s := State([Seed(A), Seed(B)], s0.pc, [], 0, map[]);
    TwoSeeds(s);
    AgentPasses(s0, s, A, 0);
    var s1 :| Leads(TWO_AGENTS, s0, s1) && s1.pc == s.pc[A := Waiting(A, 0)] && s1.clock == 0
              && |s1.table| == 2 && s1.table[1] == s.table[1]
              && s1.table[0] == s.table[0].(received := Some(0), processed := Some(0));
    assert OneWaits(s1);
  }

  lemma SecondPasses(s1: State)
    requires Leads(TWO_AGENTS, Start(TWO_AGENTS, 0), s1) && OneWaits(s1)
    ensures exists s :: Leads(TWO_AGENTS, Start(TWO_AGENTS, 0), s) && BothWait(s)
  {
    var s0 := Start(TWO_AGENTS, 0);
    AgentPasses(s0, s1, B, 1);
    var s2 :| Leads(TWO_AGENTS, s0, s2) && s2.pc == s1.pc[B := Waiting(B, 1)] && s2.clock == 0
              && |s2.table| == 2 && s2.table[0] == s1.table[0]
              && s2.table[1] == s1.table[1].(received := Some(0), processed := Some(0));
    assert BothWait(s2);
  }

  lemma CeilingCanBePassed()
    ensures exists s :: Reachable(TWO_AGENTS, s) && Count(s.table, THREAD) == TWO_AGENTS.ceiling + 1
  {
    var s0 := Start(TWO_AGENTS, 0);
    FirstPasses();
    var s1 :| Leads(TWO_AGENTS, s0, s1) && OneWaits(s1);
    SecondPasses(s1);
    var s2 :| Leads(TWO_AGENTS, s0, s2) && BothWait(s2);
    BothInsert(s0, s2);
    var s3 :| Leads(TWO_AGENTS, s0, s3) && Count(s3.table, THREAD) == 4;
    var acts :| RunTo(TWO_AGENTS, s0, acts, s3);
    assert Reachable(TWO_AGENTS, s3);
  }
}
