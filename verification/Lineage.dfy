/** What every reachable state of the cluster knows about where its rows come from. */
module Lineage {
  import opened Messages
  import opened Query
  import opened Cluster

  // Row i is a person's message, or the one reply of an agent to an older row of its own inbox.
  ghost predicate RowTraced(cfg: Config, s: State, i: nat)
    requires i < |s.table|
  {
    var r := s.table[i];
    && r.created <= s.clock
    && (r.sender == HUMAN <==> r.parent.None?)
    && (r.processed.Some? && r.recipient != HUMAN ==> i in s.answered && s.answered[i] != "")
    && (r.parent.Some? ==> r.parent.value < i && ReplyTo(s, r, r.parent.value))
  }

  // r carries the agent's reply to row p, on the same thread and under the same subject.
  ghost predicate ReplyTo(s: State, r: Row, p: nat)
    requires p < |s.table|
  {
    var q := s.table[p];
    && q.processed.Some? && q.recipient == r.sender && q.recipient != HUMAN
    && q.thread == r.thread && q.subject == r.subject && q.created <= r.created
    && p in s.answered && r.body == s.answered[p] && r.body != ""
  }

  ghost predicate NoChild(s: State, p: nat) {
    forall i | 0 <= i < |s.table| :: s.table[i].parent != Some(p)
  }

  ghost predicate AtMostOneChild(s: State) {
    forall i, j | 0 <= i < j < |s.table| :: s.table[i].parent.Some? ==> s.table[i].parent != s.table[j].parent
  }

  // The newest row a runner has sent is no newer than the one it has just built.
  ghost predicate BuiltLast(s: State, a: Name, row: Row) {
    forall i | 0 <= i < |s.table| && s.table[i].sender == a :: s.table[i].created <= row.created
  }

  ghost predicate RunnerTraced(s: State, a: Name, p: Pc) {
    p.Idle? ||
    (&& p.job.id < |s.table|
     && var row := s.table[p.job.id];
        && row.recipient == a && row.thread == p.job.thread && row.subject == p.job.subject
        && (p.Got? || p.Answered? ==> row.processed.None?)
        && (p.Answered? || (Dispatching(p) && !p.Built?) ==>
              p.reply != "" && p.job.id in s.answered && s.answered[p.job.id] == p.reply)
        && (Dispatching(p) ==> row.processed.Some? && NoChild(s, p.job.id))
        && (p.Built? ==>
              && p.row.sender == a && p.row.parent == Some(p.job.id) && p.row.processed.None?
              && p.row.created <= s.clock
              && ReplyTo(s, p.row, p.job.id) && BuiltLast(s, a, p.row)))
  }

  ghost predicate Draft(s: State, r: Row) {
    r.sender == HUMAN && r.parent.None? && r.processed.None? && r.created <= s.clock
  }

  ghost predicate Traced(cfg: Config, s: State) {
    && s.pc.Keys == cfg.agents.Keys
    && (forall i: nat | i < |s.table| :: RowTraced(cfg, s, i))
    && AtMostOneChild(s)
    && (forall a | a in s.pc :: RunnerTraced(s, a, s.pc[a]))
    && (forall k | 0 <= k < |s.outbox| :: Draft(s, s.outbox[k]))
  }

  lemma StartIsTraced(cfg: Config, clock: int)
    ensures Traced(cfg, Start(cfg, clock))
  {
  }

  // An action that leaves table, history and clock alone only has to account for one runner.
  lemma RunnerMoves(cfg: Config, s: State, a: Name, p: Pc)
    requires Traced(cfg, s) && a in s.pc
    requires var s' := s.(pc := s.pc[a := p]); RunnerTraced(s', a, p)
    ensures Traced(cfg, s.(pc := s.pc[a := p]))
  {
    var s' := s.(pc := s.pc[a := p]);
    forall i: nat | i < |s'.table| ensures RowTraced(cfg, s', i) {
      assert RowTraced(cfg, s, i);
    }
    forall b | b in s'.pc ensures RunnerTraced(s', b, s'.pc[b]) {
      if b != a { assert RunnerTraced(s, b, s.pc[b]); }
    }
    forall k | 0 <= k < |s'.outbox| ensures Draft(s', s'.outbox[k]) {
      assert Draft(s, s.outbox[k]);
    }
  }

  lemma ReceiveIsTraced(cfg: Config, s: State, a: Name)
    requires ValidConfig(cfg) && Traced(cfg, s) && Enabled(cfg, s, Receive(a))
    ensures Traced(cfg, Apply(cfg, s, Receive(a)))
  {
    OldestIsTheOldest(s.table, a);
    StampIsTraced(cfg, s, a, Oldest(s.table, a).value, Apply(cfg, s, Receive(a)));
  }

  // Runner a takes up row id.
  lemma StampIsTraced(cfg: Config, s: State, a: Name, id: nat, s': State)
    requires Traced(cfg, s) && a in s.pc && id < |s.table|
    requires s.table[id].recipient == a && s.table[id].processed.None?
    requires s' == s.(table := s.table[id := s.table[id].(received := Some(s.clock))],
                      pc := s.pc[a := Got(Job(id, s.table[id].thread, s.table[id].subject))])
    ensures Traced(cfg, s')
  {
    forall i: nat | i < |s'.table| ensures RowTraced(cfg, s', i) {
      assert RowTraced(cfg, s, i);
    }
    forall b | b in s'.pc ensures RunnerTraced(s', b, s'.pc[b]) {
      StampKeepsRunner(s, a, id, s', b);
    }
    forall k | 0 <= k < |s'.outbox| ensures Draft(s', s'.outbox[k]) {
      assert Draft(s, s.outbox[k]);
    }
  }

  lemma StampKeepsRunner(s: State, a: Name, id: nat, s': State, b: Name)
    requires a in s.pc && id < |s.table| && b in s.pc && RunnerTraced(s, b, s.pc[b])
    requires s.table[id].recipient == a && s.table[id].processed.None?
    requires s' == s.(table := s.table[id := s.table[id].(received := Some(s.clock))],
                      pc := s.pc[a := Got(Job(id, s.table[id].thread, s.table[id].subject))])
    ensures RunnerTraced(s', b, s'.pc[b])
  {
  }

  lemma AnswerIsTraced(cfg: Config, s: State, a: Name, reply: string, routed: Option<Name>)
    requires ValidConfig(cfg) && Traced(cfg, s) && Enabled(cfg, s, Answer(a, reply, routed))
    ensures Traced(cfg, Apply(cfg, s, Answer(a, reply, routed)))
  {
    var s' := Apply(cfg, s, Answer(a, reply, routed));
    assert RunnerTraced(s, a, s.pc[a]);
    forall i: nat | i < |s'.table| ensures RowTraced(cfg, s', i) {
      assert RowTraced(cfg, s, i);
    }
    forall b | b in s'.pc ensures RunnerTraced(s', b, s'.pc[b]) {
      assert RunnerTraced(s, b, s.pc[b]);
    }
    forall k | 0 <= k < |s'.outbox| ensures Draft(s', s'.outbox[k]) {
      assert Draft(s, s.outbox[k]);
    }
  }

  // Marking row id processed, by its own runner's ack or by a person reading it.
  lemma ProcessingIsTraced(cfg: Config, s: State, id: nat, s': State)
    requires Traced(cfg, s) && id < |s.table|
    requires s.table[id].recipient == HUMAN || (id in s.answered && s.answered[id] != "")
    requires s' == s.(table := s.table[id := s.table[id].(processed := Some(s.clock))], pc := s'.pc)
    requires s'.pc.Keys == s.pc.Keys
    requires forall b | b in s.pc :: s'.pc[b] == s.pc[b] || RunnerTraced(s', b, s'.pc[b])
    requires forall b | b in s.pc && s'.pc[b] == s.pc[b] && (s.pc[b].Got? || s.pc[b].Answered?) :: s.pc[b].job.id != id
    ensures Traced(cfg, s')
  {
    forall i: nat | i < |s'.table| ensures RowTraced(cfg, s', i) {
      assert RowTraced(cfg, s, i);
    }
    forall b | b in s'.pc ensures RunnerTraced(s', b, s'.pc[b]) {
      assert RunnerTraced(s, b, s.pc[b]);
    }
    forall k | 0 <= k < |s'.outbox| ensures Draft(s', s'.outbox[k]) {
      assert Draft(s, s.outbox[k]);
    }
  }

  // An unprocessed row has no reply yet.
  lemma UnprocessedHasNoChild(cfg: Config, s: State, id: nat)
    requires Traced(cfg, s) && id < |s.table| && s.table[id].processed.None?
    ensures NoChild(s, id)
  {
    forall i | 0 <= i < |s.table| ensures s.table[i].parent != Some(id) {
      assert RowTraced(cfg, s, i);
    }
  }

  lemma AckIsTraced(cfg: Config, s: State, a: Name)
    requires ValidConfig(cfg) && Traced(cfg, s) && Enabled(cfg, s, Ack(a))
    ensures Traced(cfg, Apply(cfg, s, Ack(a)))
  {
    var s' := Apply(cfg, s, Ack(a));
    var id := s.pc[a].job.id;
    assert RunnerTraced(s, a, s.pc[a]);
    UnprocessedHasNoChild(cfg, s, id);
    assert NoChild(s', id);
    forall b | b in s.pc && b != a ensures s.pc[b].Got? || s.pc[b].Answered? ==> s.pc[b].job.id != id {
      assert RunnerTraced(s, b, s.pc[b]);
    }
    ProcessingIsTraced(cfg, s, id, s');
  }

  lemma HumanReadIsTraced(cfg: Config, s: State, id: nat)
    requires ValidConfig(cfg) && Traced(cfg, s) && Enabled(cfg, s, HumanRead(id))
    ensures Traced(cfg, Apply(cfg, s, HumanRead(id)))
  {
    forall b | b in s.pc ensures s.pc[b].Got? || s.pc[b].Answered? ==> s.pc[b].job.id != id {
      assert RunnerTraced(s, b, s.pc[b]);
    }
    ProcessingIsTraced(cfg, s, id, Apply(cfg, s, HumanRead(id)));
  }

  // A new row is a draft, or the reply a runner built to a row that has none.
  lemma AppendIsTraced(cfg: Config, s: State, r: Row, s': State)
    requires ValidConfig(cfg) && Traced(cfg, s)
    requires s'.table == s.table + [r] && s'.clock == s.clock && s'.answered == s.answered
    requires r.processed.None? && r.created <= s.clock
    requires (r.sender == HUMAN <==> r.parent.None?)
    requires r.parent.Some? ==>
               r.parent.value < |s.table| && ReplyTo(s, r, r.parent.value) && NoChild(s, r.parent.value)
    requires s'.pc.Keys == s.pc.Keys
    requires forall b | b in s.pc :: s'.pc[b] == s.pc[b] || s'.pc[b].Idle?
    requires r.sender in s.pc ==> s'.pc[r.sender].Idle?
    requires forall k | 0 <= k < |s'.outbox| :: s'.outbox[k] in s.outbox
    ensures Traced(cfg, s')
  {
    forall i: nat | i < |s'.table| ensures RowTraced(cfg, s', i) {
      if i < |s.table| {
        assert RowTraced(cfg, s, i);
        assert s'.table[i] == s.table[i];
      }
    }
    forall b | b in s'.pc ensures RunnerTraced(s', b, s'.pc[b]) {
      assert RunnerTraced(s, b, s.pc[b]);
      if !s'.pc[b].Idle? {
        var id := s.pc[b].job.id;
        assert b != r.sender && r.parent != Some(id);
        assert s'.table[id] == s.table[id];
      }
    }
    forall k | 0 <= k < |s'.outbox| ensures Draft(s', s'.outbox[k]) {
      assert s'.outbox[k] in s.outbox;
      var j :| 0 <= j < |s.outbox| && s.outbox[j] == s'.outbox[k];
      assert Draft(s, s.outbox[j]);
    }
  }

  lemma InsertIsTraced(cfg: Config, s: State, a: Name)
    requires ValidConfig(cfg) && Traced(cfg, s) && Enabled(cfg, s, Insert(a))
    ensures Traced(cfg, Apply(cfg, s, Insert(a)))
  {
    assert RunnerTraced(s, a, s.pc[a]);
    AppendIsTraced(cfg, s, s.pc[a].row.(sent := Some(s.clock)), Apply(cfg, s, Insert(a)));
  }

  lemma HumanInsertIsTraced(cfg: Config, s: State, k: nat)
    requires ValidConfig(cfg) && Traced(cfg, s) && Enabled(cfg, s, HumanInsert(k))
    ensures Traced(cfg, Apply(cfg, s, HumanInsert(k)))
  {
    assert Draft(s, s.outbox[k]);
    AppendIsTraced(cfg, s, s.outbox[k].(sent := Some(s.clock)), Apply(cfg, s, HumanInsert(k)));
  }

  lemma TimeIsTraced(cfg: Config, s: State, s': State)
    requires Traced(cfg, s) && s.clock <= s'.clock
    requires s' == s.(clock := s'.clock, outbox := s'.outbox)
    requires forall k | 0 <= k < |s'.outbox| :: Draft(s', s'.outbox[k])
    ensures Traced(cfg, s')
  {
    forall i: nat | i < |s'.table| ensures RowTraced(cfg, s', i) {
      assert RowTraced(cfg, s, i);
    }
    forall b | b in s'.pc ensures RunnerTraced(s', b, s'.pc[b]) {
      assert RunnerTraced(s, b, s.pc[b]);
    }
  }

  lemma StepIsTraced(cfg: Config, s: State, act: Action)
    requires ValidConfig(cfg) && Traced(cfg, s) && Enabled(cfg, s, act)
    ensures Traced(cfg, Apply(cfg, s, act))
  {
    var s' := Apply(cfg, s, act);
    match act
    case Receive(a) => ReceiveIsTraced(cfg, s, a);
    case Answer(a, reply, routed) => AnswerIsTraced(cfg, s, a, reply, routed);
    case Ack(a) => AckIsTraced(cfg, s, a);
    case Insert(a) => InsertIsTraced(cfg, s, a);
    case HumanInsert(k) => HumanInsertIsTraced(cfg, s, k);
    case HumanRead(id) => HumanReadIsTraced(cfg, s, id);
    case GiveUp(a) => RunnerMoves(cfg, s, a, s'.pc[a]);
    case CheckLoop(a) => assert RunnerTraced(s, a, s.pc[a]); RunnerMoves(cfg, s, a, s'.pc[a]);
    case CheckCeiling(a) => assert RunnerTraced(s, a, s.pc[a]); RunnerMoves(cfg, s, a, s'.pc[a]);
    case Build(a) => BuildIsTraced(cfg, s, a);
    case Crash(a) => RunnerMoves(cfg, s, a, s'.pc[a]);
    case HumanCompose(_, _, _, _) =>
      forall k | 0 <= k < |s'.outbox| ensures Draft(s', s'.outbox[k]) {
        if k < |s.outbox| { assert Draft(s, s.outbox[k]); }
      }
      TimeIsTraced(cfg, s, s');
    case Tick(_) =>
      forall k | 0 <= k < |s'.outbox| ensures Draft(s', s'.outbox[k]) {
        assert Draft(s, s.outbox[k]);
      }
      TimeIsTraced(cfg, s, s');
  }

  lemma BuildIsTraced(cfg: Config, s: State, a: Name)
    requires ValidConfig(cfg) && Traced(cfg, s) && Enabled(cfg, s, Build(a))
    ensures Traced(cfg, Apply(cfg, s, Build(a)))
  {
    var s' := Apply(cfg, s, Build(a));
    assert RunnerTraced(s, a, s.pc[a]);
    assert RowTraced(cfg, s, s.pc[a].job.id);
    forall i | 0 <= i < |s.table| ensures s.table[i].created <= s.clock {
      assert RowTraced(cfg, s, i);
    }
    RunnerMoves(cfg, s, a, s'.pc[a]);
  }
}
