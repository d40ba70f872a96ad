/** One agent that talks to itself, for as long as the two checks let it: runs that reach the bounds. */
module Monologue {
  import opened Messages
  import opened Query
  import opened Streaks
  import opened Checks
  import opened Cluster
  import opened Tokens
  import opened Runs
  import opened Refinement

  const A: Name := "a"
  const THREAD := "t"
  const REPLY := "done"

  function Seed(recipient: Name): Row {
    Row(HUMAN, recipient, "", "go", THREAD, None, 0, Some(0), None, None)
  }

  lemma {:induction false} AllOnThread(rows: seq<Row>, thread: string)
    requires forall r | r in rows :: r.thread == thread
    ensures Count(rows, thread) == |rows|
  {
    if rows != [] {
      var last := |rows| - 1;
      AllOnThread(rows[..last], thread);
      assert rows == rows[..last] + [rows[last]];
      IdsAppend(rows[..last], rows[last], OnThread(thread));
    }
  }

  // One agent that answers itself.
  function Alone(T: nat, m: nat): Config {
    Config(map[A := AgentConfig(Some(A), {})], T, m)
  }

  // The first n rows: a person's message, and the agent's to itself.
  ghost predicate Talk(rows: seq<Row>, n: nat) {
    && 0 < n <= |rows| && rows[0].sender == HUMAN && rows[0].created == 0
    && forall j | 1 <= j < n :: rows[j].sender == A && rows[j].recipient == A && rows[j].created == 0
  }

  // n messages on one thread, the first from a person, all but the last processed.
  ghost predicate Grown(s: State, n: nat) {
    && s.pc == map[A := Idle] && s.outbox == [] && s.clock == 0
    && |s.table| == n > 0 && (forall r | r in s.table :: r.thread == THREAD && r.subject == "")
    && (forall j: nat | j < n :: Inbox(A)(s.table[j]) <==> j == n - 1)
    && Injected(s, THREAD) == 1 && Talk(s.table, n)
  }

  // The last message answered, the answer built.
  ghost predicate OnItsWay(s: State, n: nat) {
    && n > 0 && A in s.pc && s.pc[A].Built?
    && s.pc[A].row == Row(A, A, "", REPLY, THREAD, Some((n - 1) as nat), 0, None, None, None)
    && s.outbox == [] && s.clock == 0 && s.pc == map[A := s.pc[A]]
    && |s.table| >= n && (forall r | r in s.table :: r.thread == THREAD && r.subject == "")
    && (forall j: nat | j < n :: !Inbox(A)(s.table[j]))
    && Injected(s, THREAD) == 1 + |s.table| - n && Talk(s.table, n)
  }

  lemma OneSeed(T: nat, m: nat)
    ensures exists s :: Leads(Alone(T, m), Start(Alone(T, m), 0), s) && Grown(s, 1)
  {
    var cfg := Alone(T, m);
    var s0 := Start(cfg, 0);
    LeadsToItself(cfg, s0);
    LeadsOn(cfg, s0, s0, HumanCompose([A], "", "go", THREAD));
    var s1 := Apply(cfg, s0, HumanCompose([A], "", "go", THREAD));
    assert s1.outbox == [Seed(A).(sent := None)];
    LeadsOn(cfg, s0, s1, HumanInsert(0));
    var s2 := Apply(cfg, s1, HumanInsert(0));
    assert s2.table == [Seed(A)];
    IdsAppend([], Seed(A), FromHuman(THREAD));
    assert Ids([], FromHuman(THREAD)) == {};
    assert [] + [Seed(A)] == s2.table;
    assert Grown(s2, 1);
  }

  // The last message received, and then answered.
  function Taken(s: State, n: nat): State
    requires 0 < n <= |s.table|
  {
    State(s.table[n - 1 := s.table[n - 1].(received := Some(0))], map[A := Got(Job(n - 1, THREAD, ""))],
          s.outbox, 0, s.answered)
  }

  function Replied(s: State, n: nat, p: Pc): State
    requires 0 < n <= |s.table|
  {
    State(s.table[n - 1 := s.table[n - 1].(received := Some(0), processed := Some(0))], map[A := p],
          s.outbox, 0, s.answered[n - 1 := REPLY])
  }

  lemma TakesLast(T: nat, m: nat, s: State, n: nat)
    requires Leads(Alone(T, m), Start(Alone(T, m), 0), s) && Grown(s, n)
    ensures Leads(Alone(T, m), Start(Alone(T, m), 0), Taken(s, n))
  {
    OldestIsTheOldest(s.table, A);
    assert Inbox(A)(s.table[n - 1]);
    LeadsOn(Alone(T, m), Start(Alone(T, m), 0), s, Receive(A));
    SameState(Apply(Alone(T, m), s, Receive(A)), Taken(s, n));
  }

  lemma RepliesToLast(T: nat, m: nat, s: State, n: nat)
    requires Grown(s, n) && Leads(Alone(T, m), Start(Alone(T, m), 0), Taken(s, n))
    ensures Leads(Alone(T, m), Start(Alone(T, m), 0), Replied(s, n, Acked(Job(n - 1, THREAD, ""), REPLY, A)))
  {
    var u := Taken(s, n);
    AnswerPart(Alone(T, m), Start(Alone(T, m), 0), u, A, REPLY, None, 0);
    SameState(State(u.table[n - 1 := u.table[n - 1].(processed := Some(0))],
                    u.pc[A := Acked(Job(n - 1, THREAD, ""), REPLY, A)], u.outbox, 0, u.answered[n - 1 := REPLY]),
              Replied(s, n, Acked(Job(n - 1, THREAD, ""), REPLY, A)));
  }

  // Both checks let the answer to n messages pass.
  predicate LetsPass(T: nat, m: nat, n: nat) {
    (m == 0 || n < m) && (T == 0 || n <= T)
  }

  lemma HeadIs(s: seq<Stamp>, x: Stamp)
    requires Sorted(s) && x in s && forall y | y in s && y != x :: Before(x, y)
    ensures s[0] == x && forall j | 1 <= j < |s| :: s[j] != x
  {
    var k :| 0 <= k < |s| && s[k] == x;
    assert s[0] in s;
    assert k > 0 ==> Before(s[0], s[k]);
    forall j | 1 <= j < |s| ensures s[j] != x {
      assert Before(s[0], s[j]);
    }
  }

  lemma RowOfTalk(rows: seq<Row>, n: nat, x: Stamp)
    requires Talk(rows, n) && |rows| == n && x.id < n && x == StampOf(rows, x.id)
    ensures x == StampOf(rows, 0) || (Self(x, A) && Before(StampOf(rows, 0), x))
  {
  }

  // The thread of a talk is the talk: the person's message, then the agent's.
  lemma ThreadOfTalk(rows: seq<Row>, n: nat)
    requires Talk(rows, n) && |rows| == n && forall r | r in rows :: r.thread == THREAD
    ensures |Thread(rows, THREAD)| == n && Thread(rows, THREAD)[0].sender == HUMAN
    ensures AllSelf(Thread(rows, THREAD), A, 1, n)
  {
    var s := Thread(rows, THREAD);
    SelectIsTheOrderedQuery(rows, OnThread(THREAD));
    SelectCounts(rows, OnThread(THREAD));
    AllOnThread(rows, THREAD);
    assert StampOf(rows, 0) in s by { assert rows[0] in rows; }
    forall x | x in s ensures x == StampOf(rows, 0) || (Self(x, A) && Before(StampOf(rows, 0), x)) {
      RowOfTalk(rows, n, x);
    }
    HeadIs(s, StampOf(rows, 0));
  }

  lemma NoLoopYet(rows: seq<Row>, n: nat, T: nat)
    requires Talk(rows, n) && |rows| == n && forall r | r in rows :: r.thread == THREAD
    requires T == 0 || n <= T
    ensures !LoopDetected(rows, THREAD, A, A, T)
  {
    ThreadOfTalk(rows, n);
    LoopDetectedExactly(rows, THREAD, A, A, T);
  }

  lemma PassesChecks(T: nat, m: nat, s: State, n: nat)
    requires Grown(s, n) && LetsPass(T, m, n)
    requires Leads(Alone(T, m), Start(Alone(T, m), 0), Replied(s, n, Acked(Job(n - 1, THREAD, ""), REPLY, A)))
    ensures Leads(Alone(T, m), Start(Alone(T, m), 0), Replied(s, n, CeilingPassed(Job(n - 1, THREAD, ""), REPLY, A)))
  {
    var u := Replied(s, n, Acked(Job(n - 1, THREAD, ""), REPLY, A));
    AllOnThread(u.table, THREAD);
    NoLoopYet(u.table, n, T);
    CheckPart(Alone(T, m), Start(Alone(T, m), 0), u, A);
    SameState(With(u, A, CeilingPassed(Job(n - 1, THREAD, ""), REPLY, A)),
              Replied(s, n, CeilingPassed(Job(n - 1, THREAD, ""), REPLY, A)));
  }

  lemma BuildsAnswer(s: State, n: nat, p: Pc)
    requires Grown(s, n)
    requires p == Built(Job(n - 1, THREAD, ""), Row(A, A, "", REPLY, THREAD, Some((n - 1) as nat), 0, None, None, None))
    ensures OnItsWay(Replied(s, n, p), n)
  {
    var u := Replied(s, n, p);
    IdsKept(s.table, n - 1, u.table[n - 1], FromHuman(THREAD));
    forall j: nat | j < n ensures !Inbox(A)(u.table[j]) {
      if j < n - 1 { assert !Inbox(A)(s.table[j]); }
    }
  }

  // While the checks let it, the agent answers its last message.
  lemma AnswerPasses(T: nat, m: nat, s: State, n: nat)
    requires Leads(Alone(T, m), Start(Alone(T, m), 0), s) && Grown(s, n) && LetsPass(T, m, n)
    ensures exists s' :: Leads(Alone(T, m), Start(Alone(T, m), 0), s') && OnItsWay(s', n) && |s'.table| == n
  {
    var job := Job(n - 1, THREAD, "");
    var u := Replied(s, n, CeilingPassed(job, REPLY, A));
    var p := Built(job, Row(A, A, "", REPLY, THREAD, Some((n - 1) as nat), 0, None, None, None));
    TakesLast(T, m, s, n);
    RepliesToLast(T, m, s, n);
    PassesChecks(T, m, s, n);
    LeadsOn(Alone(T, m), Start(Alone(T, m), 0), u, Build(A));
    SameState(Apply(Alone(T, m), u, Build(A)), Replied(s, n, p));
    BuildsAnswer(s, n, p);
  }

  lemma InsertIt(T: nat, m: nat, s: State, n: nat)
    requires Leads(Alone(T, m), Start(Alone(T, m), 0), s) && OnItsWay(s, n)
    ensures exists s' :: Leads(Alone(T, m), Start(Alone(T, m), 0), s')
              && s'.table == s.table + [s.pc[A].row.(sent := Some(0))]
              && s'.pc == map[A := Idle] && s'.outbox == [] && s'.clock == 0
              && Injected(s', THREAD) == Injected(s, THREAD)
  {
    LeadsOn(Alone(T, m), Start(Alone(T, m), 0), s, Insert(A));
    IdsAppend(s.table, s.pc[A].row.(sent := Some(0)), FromHuman(THREAD));
  }

  lemma InsertGrows(T: nat, m: nat, s: State, n: nat)
    requires Leads(Alone(T, m), Start(Alone(T, m), 0), s) && OnItsWay(s, n) && |s.table| == n
    ensures exists s' :: Leads(Alone(T, m), Start(Alone(T, m), 0), s') && Grown(s', n + 1)
  {
    InsertIt(T, m, s, n);
    var s' :| Leads(Alone(T, m), Start(Alone(T, m), 0), s') && s'.table == s.table + [s.pc[A].row.(sent := Some(0))]
              && s'.pc == map[A := Idle] && s'.outbox == [] && s'.clock == 0
              && Injected(s', THREAD) == Injected(s, THREAD);
    assert Grown(s', n + 1);
  }

  lemma {:induction false} Grow(T: nat, m: nat, n: nat)
    requires n == 1 || (n > 1 && LetsPass(T, m, n - 1))
    ensures exists s :: Leads(Alone(T, m), Start(Alone(T, m), 0), s) && Grown(s, n)
  {
    if n == 1 {
      OneSeed(T, m);
    } else {
      Grow(T, m, n - 1);
      var s :| Leads(Alone(T, m), Start(Alone(T, m), 0), s) && Grown(s, n - 1);
      AnswerPasses(T, m, s, n - 1);
      var s1 :| Leads(Alone(T, m), Start(Alone(T, m), 0), s1) && OnItsWay(s1, n - 1) && |s1.table| == n - 1;
      InsertGrows(T, m, s1, n - 1);
    }
  }

  lemma LeadsIsReachable(T: nat, m: nat, s: State)
    requires Leads(Alone(T, m), Start(Alone(T, m), 0), s)
    ensures Reachable(Alone(T, m), s)
  {
    var acts :| RunTo(Alone(T, m), Start(Alone(T, m), 0), acts, s);
  }

  // For every threshold T some thread comes to hold T neighbouring self-sends: the bound of
  // `Runs.SelfLoopsAreBounded` is reached.
  lemma SelfLoopBoundIsReached(T: nat)
    requires T > 0
    ensures exists s :: Reachable(Alone(T, 0), s)
              && |Thread(s.table, THREAD)| == T + 1 && AllSelf(Thread(s.table, THREAD), A, 1, T + 1)
  {
    Grow(T, 0, T + 1);
    var s :| Leads(Alone(T, 0), Start(Alone(T, 0), 0), s) && Grown(s, T + 1);
    ThreadOfTalk(s.table, T + 1);
    LeadsIsReachable(T, 0, s);
  }
}
