/** An uninterrupted `run_once` is a run of the cluster: the method of the runner class does what
    the transition system says, so every theorem about runs covers it. */
module Refinement {
  import opened Messages
  import opened Query
  import opened Checks
  import opened Cluster
  import opened Transport
  import opened Runner
  import opened Runs

  predicate CrashFree(acts: seq<Action>) {
    forall k | 0 <= k < |acts| :: !acts[k].Crash?
  }

  // Some run without a crash leads from s to s'.
  ghost predicate Leads(cfg: Config, s: State, s': State) {
    exists acts :: RunTo(cfg, s, acts, s') && CrashFree(acts)
  }

  lemma LeadsToItself(cfg: Config, s: State)
    ensures Leads(cfg, s, s)
  {
    assert RunTo(cfg, s, [], s) && CrashFree([]);
  }

  lemma LeadsOn(cfg: Config, s: State, s1: State, act: Action)
    requires Leads(cfg, s, s1) && Enabled(cfg, s1, act) && !act.Crash?
    ensures Leads(cfg, s, Apply(cfg, s1, act))
  {
    var acts :| RunTo(cfg, s, acts, s1) && CrashFree(acts);
    var s2 := Apply(cfg, s1, act);
    assert [act][1..] == [];
    assert ValidRun(cfg, s2, []) && Exec(cfg, s2, []) == s2;
    assert ValidRun(cfg, s1, [act]) && Exec(cfg, s1, [act]) == s2;
    RunThenRun(cfg, s, acts, [act]);
    assert CrashFree(acts + [act]);
  }

  function SetupOf(cfg: Config, a: Name, retries: nat, backoff: real): Setup
    requires a in cfg.agents
  {
    Setup(a, cfg.agents[a].next, cfg.threshold, cfg.ceiling, retries, backoff)
  }

  // s with agent a in state p.
  function With(s: State, a: Name, p: Pc): State {
    s.(pc := s.pc[a := p])
  }

  // Receive, up to the agent's answer.
  lemma ReceivePart(cfg: Config, s: State, a: Name, now: int)
    requires a in s.pc && s.pc[a].Idle? && s.clock <= now && Oldest(s.table, a).Some?
    ensures var i := Oldest(s.table, a).value;
            var row := s.table[i];
            Leads(cfg, s, s.(clock := now, table := s.table[i := row.(received := Some(now))],
                             pc := s.pc[a := Got(Job(i, row.thread, row.subject))]))
  {
    LeadsToItself(cfg, s);
    LeadsOn(cfg, s, s, Tick(now));
    LeadsOn(cfg, s, s.(clock := now), Receive(a));
  }

  lemma SameState(s: State, t: State)
    requires s.table == t.table && s.pc == t.pc && s.outbox == t.outbox && s.clock == t.clock
        && s.answered == t.answered
    ensures s == t
  {
  }

  // Answer and acknowledge.
  lemma AnswerPart(cfg: Config, s: State, s1: State, a: Name, response: string, routed: Option<Name>, now: int)
    requires Leads(cfg, s, s1) && a in s1.pc && a in cfg.agents && s1.pc[a].Got? && s1.pc[a].job.id < |s1.table|
    requires response != "" && (routed.Some? ==> routed.value in cfg.agents[a].routes) && s1.clock <= now
    ensures var job := s1.pc[a].job;
            var next := EffectiveNext(routed, cfg.agents[a].next);
            Leads(cfg, s, State(s1.table[job.id := s1.table[job.id].(processed := Some(now))],
                                s1.pc[a := if next.Some? then Acked(job, response, next.value) else Idle],
                                s1.outbox, now, s1.answered[job.id := response]))
  {
    var job := s1.pc[a].job;
    var next := EffectiveNext(routed, cfg.agents[a].next);
    LeadsOn(cfg, s, s1, Answer(a, response, routed));
    var s2 := Apply(cfg, s1, Answer(a, response, routed));
    LeadsOn(cfg, s, s2, Tick(now));
    var s3 := Apply(cfg, s2, Tick(now));
    LeadsOn(cfg, s, s3, Ack(a));
    SameState(Apply(cfg, s3, Ack(a)),
              State(s1.table[job.id := s1.table[job.id].(processed := Some(now))],
                    s1.pc[a := if next.Some? then Acked(job, response, next.value) else Idle],
                    s1.outbox, now, s1.answered[job.id := response]));
  }

  // The two checks.
  lemma CheckPart(cfg: Config, s: State, s1: State, a: Name)
    requires Leads(cfg, s, s1) && a in s1.pc && s1.pc[a].Acked?
    ensures var Acked(job, reply, dest) := s1.pc[a];
            var stopped := LoopDetected(s1.table, job.thread, a, dest, cfg.threshold)
                || CeilingReached(s1.table, job.thread, cfg.ceiling);
            Leads(cfg, s, With(s1, a, if stopped then Idle else CeilingPassed(job, reply, dest)))
  {
    var Acked(job, reply, dest) := s1.pc[a];
    LeadsOn(cfg, s, s1, CheckLoop(a));
    var s2 := Apply(cfg, s1, CheckLoop(a));
    if s2.pc[a].LoopPassed? {
      LeadsOn(cfg, s, s2, CheckCeiling(a));
      var s3 := Apply(cfg, s2, CheckCeiling(a));
      SameState(s3, With(s1, a, s3.pc[a]));
    }
  }

  // Build and insert.
  lemma SendPart(cfg: Config, s: State, s1: State, a: Name, created: int, sent: int)
    requires Leads(cfg, s, s1) && a in s1.pc && s1.pc[a].CeilingPassed? && s1.clock <= created <= sent
    ensures var CeilingPassed(job, reply, dest) := s1.pc[a];
            Leads(cfg, s, State(s1.table + [Row(a, dest, job.subject, reply, job.thread, Some(job.id), created,
                                         Some(sent), None, None)],
                                s1.pc[a := Idle], s1.outbox, sent, s1.answered))
  {
    var CeilingPassed(job, reply, dest) := s1.pc[a];
    LeadsOn(cfg, s, s1, Tick(created));
    var s2 := Apply(cfg, s1, Tick(created));
    LeadsOn(cfg, s, s2, Build(a));
    var s3 := Apply(cfg, s2, Build(a));
    LeadsOn(cfg, s, s3, Tick(sent));
    var s4 := Apply(cfg, s3, Tick(sent));
    LeadsOn(cfg, s, s4, Insert(a));
    SameState(Apply(cfg, s4, Insert(a)),
              State(s1.table + [Row(a, dest, job.subject, reply, job.thread, Some(job.id), created,
                                         Some(sent), None, None)],
                    s1.pc[a := Idle], s1.outbox, sent, s1.answered));
  }

  // The state a run leaves everything but the table, the clock and the history in.
  ghost predicate LeadsToTable(cfg: Config, s: State, rows: seq<Row>) {
    exists s' :: Leads(cfg, s, s') && s'.table == rows && s'.pc == s.pc && s'.outbox == s.outbox
  }

  lemma AnswerIsARun(cfg: Config, s: State, a: Name, response: string, routed: Option<Name>, t: Times, setup: Setup)
    requires ValidConfig(cfg) && a in cfg.agents && a in s.pc && s.pc[a].Idle? && Oldest(s.table, a).Some?
    requires setup.name == a && setup.next == cfg.agents[a].next && setup.threshold == cfg.threshold
        && setup.ceiling == cfg.ceiling
    requires response != "" && (routed.Some? ==> routed.value in cfg.agents[a].routes)
    requires s.clock <= t.received <= t.acked <= t.created <= t.sent
    ensures LeadsToTable(cfg, s, AfterAnswer(setup, s.table, Oldest(s.table, a).value, response, routed, t))
  {
    var i := Oldest(s.table, a).value;
    var row := s.table[i];
    var job := Job(i, row.thread, row.subject);
    var next := EffectiveNext(routed, cfg.agents[a].next);
    var acked := Handled(s.table, i, t.received, t.acked);
    ReceivePart(cfg, s, a, t.received);
    var s1 := s.(clock := t.received, table := s.table[i := row.(received := Some(t.received))],
        pc := s.pc[a := Got(job)]);
    AnswerPart(cfg, s, s1, a, response, routed, t.acked);
    var s2 := State(acked, s.pc[a := if next.Some? then Acked(job, response, next.value) else Idle],
                    s.outbox, t.acked, s.answered[i := response]);
    SameState(s2, State(s1.table[i := s1.table[i].(processed := Some(t.acked))],
                        s1.pc[a := if next.Some? then Acked(job, response, next.value) else Idle],
                        s1.outbox, t.acked, s1.answered[i := response]));
    if next.Some? {
      CheckPart(cfg, s, s2, a);
      var stopped := LoopDetected(acked, row.thread, a, next.value, cfg.threshold)
          || CeilingReached(acked, row.thread, cfg.ceiling);
      var s3 := With(s2, a, if stopped then Idle else CeilingPassed(job, response, next.value));
      if stopped {
        assert s3.pc == s.pc;
      } else {
        SendPart(cfg, s, s3, a, t.created, t.sent);
        assert s3.pc[a := Idle] == s.pc;
        assert Deliveries(Forward(setup, s.table, i, response, next.value, t), Recipients(acked, One(next.value)),
            t.sent)
            == [Row(a, next.value, row.subject, response, row.thread, Some(i), t.created, Some(t.sent), None, None)];
      }
    } else {
      assert s2.pc == s.pc;
    }
  }

  lemma RunOnceIsARun(cfg: Config, s: State, a: Name, llm: Model, t: Times, retries: nat, backoff: real)
    requires ValidConfig(cfg) && a in cfg.agents && a in s.pc && s.pc[a].Idle?
    requires forall text, thread, k ::
               var reply := llm(text, thread, k);
               reply.Reply? && reply.routed.Some? ==> reply.routed.value in cfg.agents[a].routes
    requires s.clock <= t.received <= t.acked <= t.created <= t.sent
    ensures LeadsToTable(cfg, s, Once(SetupOf(cfg, a, retries, backoff), s.table, llm, t).0)
  {
    var setup := SetupOf(cfg, a, retries, backoff);
    LeadsToItself(cfg, s);
    if Oldest(s.table, a).Some? {
      var i := Oldest(s.table, a).value;
      var asked := Asked(llm, s.table[i].body, s.table[i].thread);
      var reply := asked(Calls(asked, 1, retries + 1));
      if reply.Failed? || reply.response == "" {
        ReceivePart(cfg, s, a, t.received);
        var row := s.table[i];
        var s1 := s.(clock := t.received, table := s.table[i := row.(received := Some(t.received))],
                     pc := s.pc[a := Got(Job(i, row.thread, row.subject))]);
        LeadsOn(cfg, s, s1, GiveUp(a));
        assert Apply(cfg, s1, GiveUp(a)).pc == s.pc;
      } else {
        AnswerIsARun(cfg, s, a, reply.response, reply.routed, t, setup);
      }
    }
  }
}
